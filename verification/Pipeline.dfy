/** The sealing pipeline as a step system: any number of API gateways, sealers and cachers around two
    work queues and one Redict server.  A step is one remote command or one local decision of one
    process, or the passing of time; processes interleave freely, every command can be lost, fail
    after taking effect or be repeated by its client library, and every process can crash between
    any two steps.  A message that is retained can be delivered again at any moment, also while
    another process is still working on it. */
module Pipeline {
  import opened Common
  import C = Cacher
  import D = DocStore
  import G = Gateway
  import K = Keywords
  import P = Pdf
  import R = Redict
  import S = Sealer
  import W = WorkQueue

  /** `window` is the deduplication window of the streams, `backends[i]` the service name of sealer
      `i`; the other two are the numbers of concurrent PDFSign calls and of cache consumers. */
  datatype Config = Config(lib: P.Library, window: nat, backends: seq<string>, gateways: nat, cachers: nat)

  /** Program counters with the locals that matter. */
  datatype GatewayPc = GIdle | GPublishing(id: string, pdf: string) | GCounting(id: string)

  datatype SealerPc = SIdle | SHolding(n: nat) | SSealed(n: nat, reply: SealReply) | SPublished(n: nat)

  /** `nakked`: a terminal answer has been sent on this delivery, so later ones are refused. */
  datatype CacherPc =
    | CIdle
    | CHolding(n: nat)
    | CSaving(n: nat, doc: Document, nakked: bool)
    | CExpiring(n: nat, doc: Document, nakked: bool)
    | CFailed(n: nat, nakked: bool)
    | CAcking(n: nat, nakked: bool, saved: bool)

  datatype State = State(
    now: nat,
    seal: W.Queue<SealRequest>,
    cache: W.Queue<SealReply>,
    kv: R.Hashes,
    counters: map<string, nat>,
    gateways: seq<GatewayPc>,
    sealers: seq<SealerPc>,
    cachers: seq<CacherPc>,
    // History, read by no step: the PDF of every id ever drawn; the ids whose INCR was executed
    // and the ids returned to clients, in order; every publish on CACHE that reached the server;
    // every document ever written; the message whose handler created each key; the ids for which
    // SaveSigned returned nil; and the ids of messages acked after a failure whose naks were lost.
    requests: map<string, string>,
    counted: seq<string>,
    returned: seq<string>,
    attempts: seq<(string, nat)>,
    writes: seq<Document>,
    creators: map<string, nat>,
    saved: set<string>,
    forfeited: set<string>)

  datatype Event =
    | Tick(millis: nat)
    | Request(g: nat, id: string, pdf: string)
    | PublishJob(g: nat, call: Call)
    | Count(g: nat, call: Call)
    | GatewayCrash(g: nat)
    | Fetch(i: nat, n: nat)
    | Reply(i: nat, reply: SealReply)
    | PublishReply(i: nat, call: Call)
    | AckJob(i: nat, arrives: bool)
    | SealerCrash(i: nat)
    | Deliver(j: nat, n: nat)
    | Decode(j: nat, nakSent: bool)
    | HSet(j: nat, call: Call)
    | Expire(j: nat, call: Call)
    | NakSave(j: nat, sent: bool)
    | AckReply(j: nat, arrives: bool)
    | CacherCrash(j: nat)

  function Init(c: Config): State {
    State(0, W.Empty(), W.Empty(), map[], map[],
          seq(c.gateways, _ => GIdle), seq(|c.backends|, _ => SIdle), seq(c.cachers, _ => CIdle),
          map[], [], [], [], [], map[], {}, {})
  }

  // ---------- the gateway ----------

  predicate GatewayEnabled(s: State, e: Event) {
    match e
    // `uuid.NewString` draws an id never drawn before; an empty PDF is refused before that.
    case Request(g, id, pdf) =>
      g < |s.gateways| && s.gateways[g].GIdle? && pdf != "" && id !in s.requests && K.IsUuid(id)
    case PublishJob(g, call) => g < |s.gateways| && s.gateways[g].GPublishing? && call.Possible()
    case Count(g, call) => g < |s.gateways| && s.gateways[g].GCounting? && call.Possible()
    case GatewayCrash(g) => g < |s.gateways|
    case _ => false
  }

  function GatewayStep(c: Config, s: State, e: Event): State
    requires GatewayEnabled(s, e)
  {
    match e
    case Request(g, id, pdf) =>
      s.(requests := s.requests[id := pdf], gateways := s.gateways[g := GPublishing(id, pdf)])
    case PublishJob(g, call) =>
      var pc := s.gateways[g];
      var job := SealRequest(pc.id, pc.pdf);
      var seal' := if call.reached then W.Publish(s.seal, pc.id, Json(job), s.now, c.window) else s.seal;
      var pc' := match call.response case Acked => GCounting(pc.id) case Errored => GIdle case Again => pc;
      s.(seal := seal', gateways := s.gateways[g := pc'])
    case Count(g, call) =>
      var pc := s.gateways[g];
      var pc' := if call.response.Again? then pc else GIdle;
      s.(counters := if call.reached then R.Incr(s.counters, G.SIGNINGS) else s.counters,
         counted := if call.reached then s.counted + [pc.id] else s.counted,
         returned := if call.response.Acked? then s.returned + [pc.id] else s.returned,
         gateways := s.gateways[g := pc'])
    case GatewayCrash(g) => s.(gateways := s.gateways[g := GIdle])
  }

  // ---------- the sealer ----------

  ghost predicate SealerEnabled(c: Config, s: State, e: Event) {
    match e
    case Fetch(i, n) => i < |s.sealers| && s.sealers[i].SIdle? && n in s.seal.live
    case Reply(i, reply) =>
      && i < |s.sealers| && s.sealers[i].SHolding? && i < |c.backends| && s.sealers[i].n < |s.seal.log|
      && s.seal.log[s.sealers[i].n].payload.Json?
      && S.Replies(c.lib, c.backends[i], s.seal.log[s.sealers[i].n].payload.value, reply)
    // The Python client does not repeat a publish.
    case PublishReply(i, call) =>
      && i < |s.sealers| && s.sealers[i].SSealed? && s.sealers[i].n < |s.seal.log|
      && call.Possible() && !call.response.Again?
    case AckJob(i, arrives) => i < |s.sealers| && s.sealers[i].SPublished?
    // Also what an exception escaping `Seal` comes to.
    case SealerCrash(i) => i < |s.sealers|
    case _ => false
  }

  ghost function SealerStep(c: Config, s: State, e: Event): State
    requires SealerEnabled(c, s, e)
  {
    match e
    case Fetch(i, n) => s.(sealers := s.sealers[i := SHolding(n)])
    case Reply(i, reply) => s.(sealers := s.sealers[i := SSealed(s.sealers[i].n, reply)])
    case PublishReply(i, call) =>
      var pc := s.sealers[i];
      var id := s.seal.log[pc.n].id;
      s.(cache := if call.reached then W.Publish(s.cache, id, Json(pc.reply), s.now, c.window) else s.cache,
         attempts := if call.reached then s.attempts + [(id, s.now)] else s.attempts,
         sealers := s.sealers[i := if call.response.Acked? then SPublished(pc.n) else SIdle])
    case AckJob(i, arrives) =>
      s.(seal := if arrives then W.Remove(s.seal, s.sealers[i].n) else s.seal, sealers := s.sealers[i := SIdle])
    case SealerCrash(i) => s.(sealers := s.sealers[i := SIdle])
  }

  // ---------- the cacher ----------

  predicate CacherEnabled(s: State, e: Event) {
    match e
    case Deliver(j, n) => j < |s.cachers| && s.cachers[j].CIdle? && n in s.cache.live
    case Decode(j, nakSent) => j < |s.cachers| && s.cachers[j].CHolding? && s.cachers[j].n < |s.cache.log|
    case HSet(j, call) => j < |s.cachers| && s.cachers[j].CSaving? && call.Possible()
    case Expire(j, call) => j < |s.cachers| && s.cachers[j].CExpiring? && call.Possible()
    case NakSave(j, sent) => j < |s.cachers| && s.cachers[j].CFailed?
    case AckReply(j, arrives) => j < |s.cachers| && s.cachers[j].CAcking? && s.cachers[j].n < |s.cache.log|
    case CacherCrash(j) => j < |s.cachers|
    case _ => false
  }

  function CacherStep(s: State, e: Event): State
    requires CacherEnabled(s, e)
  {
    match e
    case Deliver(j, n) => s.(cachers := s.cachers[j := CHolding(n)])
    case Decode(j, nakSent) =>
      var n := s.cachers[j].n;
      var payload := s.cache.log[n].payload;
      s.(cachers := s.cachers[j := CSaving(n, C.Decoded(payload), payload.Malformed? && nakSent)])
    case HSet(j, call) =>
      var pc := s.cachers[j];
      if pc.doc.transactionId == "" then s.(cachers := s.cachers[j := CFailed(pc.n, pc.nakked)]) else
      var key := D.SignedKey(pc.doc.transactionId);
      var pc' := match call.response
        case Acked => CExpiring(pc.n, pc.doc, pc.nakked)
        case Errored => CFailed(pc.n, pc.nakked)
        case Again => pc;
      if !call.reached then s.(cachers := s.cachers[j := pc']) else
      s.(kv := R.HSet(s.kv, key, pc.doc, s.now),
         creators := if R.Live(s.kv, key, s.now) then s.creators else s.creators[key := pc.n],
         writes := s.writes + [pc.doc],
         cachers := s.cachers[j := pc'])
    case Expire(j, call) =>
      var pc := s.cachers[j];
      var key := D.SignedKey(pc.doc.transactionId);
      var pc' := match call.response
        case Acked => CAcking(pc.n, pc.nakked, true)
        case Errored => CFailed(pc.n, pc.nakked)
        case Again => pc;
      s.(kv := if call.reached then R.Expire(s.kv, key, D.TTL, s.now) else s.kv,
         saved := if call.response.Acked? then s.saved + {pc.doc.transactionId} else s.saved,
         cachers := s.cachers[j := pc'])
    case NakSave(j, sent) =>
      s.(cachers := s.cachers[j := CAcking(s.cachers[j].n, s.cachers[j].nakked || sent, false)])
    case AckReply(j, arrives) =>
      var pc := s.cachers[j];
      var removed := !pc.nakked && arrives;
      s.(cache := if removed then W.Remove(s.cache, pc.n) else s.cache,
         forfeited := if removed && !pc.saved then s.forfeited + {s.cache.log[pc.n].id} else s.forfeited,
         cachers := s.cachers[j := CIdle])
    case CacherCrash(j) => s.(cachers := s.cachers[j := CIdle])
  }

  // ---------- runs ----------

  ghost predicate Enabled(c: Config, s: State, e: Event) {
    e.Tick? || GatewayEnabled(s, e) || SealerEnabled(c, s, e) || CacherEnabled(s, e)
  }

  ghost function Step(c: Config, s: State, e: Event): State
    requires Enabled(c, s, e)
  {
    if e.Tick? then s.(now := s.now + e.millis)
    else if GatewayEnabled(s, e) then GatewayStep(c, s, e)
    else if SealerEnabled(c, s, e) then SealerStep(c, s, e)
    else CacherStep(s, e)
  }

  // An event belongs to one kind of process, so `Step` is that process's step.

  lemma GatewayStepIsStep(c: Config, s: State, e: Event)
    requires GatewayEnabled(s, e)
    ensures Enabled(c, s, e) && Step(c, s, e) == GatewayStep(c, s, e) && !SealerEnabled(c, s, e) && !CacherEnabled(s, e)
  {
    hide GatewayStep;
  }

  lemma SealerStepIsStep(c: Config, s: State, e: Event)
    requires SealerEnabled(c, s, e)
    ensures Enabled(c, s, e) && Step(c, s, e) == SealerStep(c, s, e) && !GatewayEnabled(s, e) && !CacherEnabled(s, e)
  {
    hide SealerStep;
  }

  lemma CacherStepIsStep(c: Config, s: State, e: Event)
    requires CacherEnabled(s, e)
    ensures Enabled(c, s, e) && Step(c, s, e) == CacherStep(s, e) && !GatewayEnabled(s, e) && !SealerEnabled(c, s, e)
  {
    hide CacherStep;
  }

  lemma TickIsStep(c: Config, s: State, e: Event)
    requires e.Tick?
    ensures Enabled(c, s, e) && Step(c, s, e) == s.(now := s.now + e.millis)
  {
  }

  ghost predicate Possible(c: Config, s: State, events: seq<Event>)
    decreases |events|
  {
    events == [] || (Enabled(c, s, events[0]) && Possible(c, Step(c, s, events[0]), events[1..]))
  }

  ghost function Run(c: Config, s: State, events: seq<Event>): State
    requires Possible(c, s, events)
    decreases |events|
  {
    if events == [] then s else Run(c, Step(c, s, events[0]), events[1..])
  }

  /** Runs compose. */
  lemma {:induction false} RunConcat(c: Config, s: State, a: seq<Event>, b: seq<Event>)
    requires Possible(c, s, a) && Possible(c, Run(c, s, a), b)
    ensures Possible(c, s, a + b) && Run(c, s, a + b) == Run(c, Run(c, s, a), b)
    decreases |a|
  {
    hide Enabled, Step;
    if a == [] {
      assert a + b == b;
    } else {
      assert (a + b)[1..] == a[1..] + b;
      RunConcat(c, Step(c, s, a[0]), a[1..], b);
    }
  }

  /** One more step at the end of a run. */
  lemma RunThen(c: Config, s: State, events: seq<Event>, e: Event)
    requires Possible(c, s, events) && Enabled(c, Run(c, s, events), e)
    ensures Possible(c, s, events + [e]) && Run(c, s, events + [e]) == Step(c, Run(c, s, events), e)
  {
    hide Enabled, Step;
    var mid := Run(c, s, events);
    assert [e][1..] == [];
    assert Possible(c, Step(c, mid, e), []);
    assert Possible(c, mid, [e]) && Run(c, mid, [e]) == Step(c, mid, e);
    RunConcat(c, s, events, [e]);
  }
}
