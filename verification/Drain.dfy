/** Draining: left alone and without faults, the pipeline finishes everything it can finish, and it
    is known exactly what it cannot. */
module Drain {
  import opened Common
  import opened Pipeline
  import opened Safety
  import opened Theorems
  import Base64
  import C = Cacher
  import D = DocStore
  import K = Keywords
  import P = Pdf
  import R = Redict
  import S = Sealer
  import W = WorkQueue

  // ---------- poison jobs ----------

  /** The PDF accepted under `id` is one a sealer can answer: a healthy one, or any sealer at all, if
      only because its PKCS#11 signer or metadata fails before the document is signed. */
  predicate Can(c: Config, s: State, id: string, healthy: bool) {
    && id in s.requests
    && if healthy then S.Answerable(c.lib, Job(s.requests, id)) else S.Replyable(c.lib, Job(s.requests, id))
  }

  /** Only such jobs have ever been answered or removed. */
  ghost predicate OnlyCanGone(c: Config, s: State, healthy: bool) {
    && (forall n :: 0 <= n < |s.seal.log| ==> n in s.seal.live || Can(c, s, s.seal.log[n].id, healthy))
    && (forall i :: 0 <= i < |s.sealers| && (s.sealers[i].SSealed? || s.sealers[i].SPublished?)
                    ==> s.sealers[i].n < |s.seal.log| && Can(c, s, s.seal.log[s.sealers[i].n].id, healthy))
    && (forall n :: 0 <= n < |s.cache.log| ==> Can(c, s, s.cache.log[n].id, healthy))
  }

  /** The step is not a reply that tells of a failing PKCS#11 signer or signature metadata. */
  ghost predicate HealthyReply(c: Config, s: State, e: Event) {
    e.Reply? && SealerEnabled(c, s, e) ==>
      S.Answers(c.lib, c.backends[e.i], s.seal.log[s.sealers[e.i].n].payload.value, e.reply)
  }

  ghost predicate HealthyRun(c: Config, s: State, events: seq<Event>)
    requires Possible(c, s, events)
    decreases |events|
  {
    events == [] || (HealthyReply(c, s, events[0]) && HealthyRun(c, Step(c, s, events[0]), events[1..]))
  }

  lemma ReplyMeansCan(c: Config, s: State, e: Event, healthy: bool)
    requires Jobs(s) && SealerEnabled(c, s, e) && e.Reply? && (healthy ==> HealthyReply(c, s, e))
    ensures Can(c, s, s.seal.log[s.sealers[e.i].n].id, healthy)
  {
    hide K.IsUuid, S.Replies;
    var m := s.seal.log[s.sealers[e.i].n];
    assert JobOk(s.requests, m);
    S.ReplyShape(c.lib, c.backends[e.i], m.payload.value, e.reply);
  }

  lemma SealerOnlyCan(c: Config, s: State, e: Event, healthy: bool)
    requires Jobs(s) && OnlyCanGone(c, s, healthy) && SealerEnabled(c, s, e) && (healthy ==> HealthyReply(c, s, e))
    ensures OnlyCanGone(c, SealerStep(c, s, e), healthy)
  {
    hide S.Replies, S.Answerable, S.Replyable, HealthyReply, Jobs;
    if e.Reply? { ReplyMeansCan(c, s, e, healthy); }
    var s' := SealerStep(c, s, e);
    assert s'.requests == s.requests && s'.seal.log == s.seal.log;
    assert forall id :: Can(c, s', id, healthy) <==> Can(c, s, id, healthy);
    hide Can;
  }

  lemma GatewayOnlyCan(c: Config, s: State, e: Event, healthy: bool)
    requires OnlyCanGone(c, s, healthy) && GatewayEnabled(s, e)
    ensures OnlyCanGone(c, GatewayStep(c, s, e), healthy)
  {
    hide K.IsUuid, S.Answerable, S.Replyable;
    var s' := GatewayStep(c, s, e);
    assert forall id :: Can(c, s, id, healthy) ==> Can(c, s', id, healthy);
    hide Can;
  }

  lemma SameJobs(c: Config, s: State, s': State, healthy: bool)
    requires OnlyCanGone(c, s, healthy) && s'.seal == s.seal && s'.sealers == s.sealers && s'.requests == s.requests
    requires s'.cache.log == s.cache.log
    ensures OnlyCanGone(c, s', healthy)
  {
  }

  lemma OnlyCanStep(c: Config, s: State, e: Event, healthy: bool)
    requires Inv(c, s) && OnlyCanGone(c, s, healthy) && Enabled(c, s, e) && (healthy ==> HealthyReply(c, s, e))
    ensures OnlyCanGone(c, Step(c, s, e), healthy)
  {
    hide OnlyCanGone, HealthyReply, Shape, Jobs, Replies, Kept, Store;
    hide GatewayEnabled, SealerEnabled, CacherEnabled, GatewayStep, SealerStep, CacherStep;
    if GatewayEnabled(s, e) {
      GatewayStepIsStep(c, s, e);
      GatewayOnlyCan(c, s, e, healthy);
    } else if SealerEnabled(c, s, e) {
      SealerStepIsStep(c, s, e);
      SealerOnlyCan(c, s, e, healthy);
    } else if CacherEnabled(s, e) {
      CacherStepIsStep(c, s, e);
      CacherFrame(s, e);
      SameJobs(c, s, CacherStep(s, e), healthy);
    } else {
      SameJobs(c, s, s.(now := s.now + e.millis), healthy);
    }
  }

  lemma {:induction false} OnlyCanRun(c: Config, s: State, events: seq<Event>, healthy: bool)
    requires Inv(c, s) && OnlyCanGone(c, s, healthy) && Possible(c, s, events) && (healthy ==> HealthyRun(c, s, events))
    ensures Inv(c, Run(c, s, events)) && OnlyCanGone(c, Run(c, s, events), healthy)
    decreases |events|
  {
    hide Inv, OnlyCanGone, HealthyReply, Enabled, Step;
    if events != [] {
      StepInv(c, s, events[0]);
      OnlyCanStep(c, s, events[0], healthy);
      OnlyCanRun(c, Step(c, s, events[0]), events[1..], healthy);
    }
  }

  lemma CannotStays(c: Config, events: seq<Event>, n: nat, healthy: bool)
    requires Possible(c, Init(c), events) && (healthy ==> HealthyRun(c, Init(c), events))
    requires n < |Run(c, Init(c), events).seal.log|
    requires var job := Run(c, Init(c), events).seal.log[n].payload;
             job.Json? && if healthy then !S.Answerable(c.lib, job.value) else !S.Replyable(c.lib, job.value)
    ensures Untouched(Run(c, Init(c), events), n)
  {
    hide Enabled, Step, HealthyRun, S.Answerable, S.Replyable, Shape, Replies, Kept, Store;
    var s := Run(c, Init(c), events);
    InitInv(c);
    OnlyCanRun(c, Init(c), events, healthy);
    var id := s.seal.log[n].id;
    assert JobOk(s.requests, s.seal.log[n]);
    assert !Can(c, s, id, healthy);
    if D.ExistsSigned(s.kv, id, s.now) { var _ := StoredIsReply(c, s, id); }
  }

  /** The job is on SEAL, CACHE has never held a message for it, and no client can read a document. */
  ghost predicate Untouched(s: State, n: nat)
    requires n < |s.seal.log|
  {
    n in s.seal.live && !W.Stored(s.cache, s.seal.log[n].id) && !D.ExistsSigned(s.kv, s.seal.log[n].id, s.now)
  }

  /** An accepted job to which no sealer can reply, because decoding its data or opening its PDF raises,
      is never answered and never removed, in any run.  (It takes down every sealer it is
      delivered to.) */
  lemma PoisonStays(c: Config, events: seq<Event>, n: nat)
    requires Possible(c, Init(c), events) && n < |Run(c, Init(c), events).seal.log|
    requires var job := Run(c, Init(c), events).seal.log[n].payload; job.Json? && !S.Replyable(c.lib, job.value)
    ensures Untouched(Run(c, Init(c), events), n)
  {
    hide Enabled, Step, Untouched, S.Replyable;
    CannotStays(c, events, n, false);
  }

  /** Nor, while no PKCS#11 signer or metadata fails, is one whose signing raises. */
  lemma UnanswerableStays(c: Config, events: seq<Event>, n: nat)
    requires Possible(c, Init(c), events) && HealthyRun(c, Init(c), events) && n < |Run(c, Init(c), events).seal.log|
    requires !AnswerableJob(c, Run(c, Init(c), events).seal.log[n])
    ensures Untouched(Run(c, Init(c), events), n)
  {
    hide Enabled, Step, Untouched, HealthyRun, S.Answerable, Shape, Replies, Kept, Store;
    var s := Run(c, Init(c), events);
    InitInv(c);
    RunInv(c, Init(c), events);
    assert JobOk(s.requests, s.seal.log[n]);
    CannotStays(c, events, n, true);
  }

  /** Decoding, opening and signing raise nothing that `Seal` does not catch. */
  predicate AnswerableJob(c: Config, m: W.Msg<SealRequest>) {
    m.payload.Json? && S.Answerable(c.lib, m.payload.value)
  }

  // ---------- fault-free schedules ----------

  /** A step of a fault-free schedule without new requests: every command and answer arrives, nothing
      fails on the sealer's side, a message is handed out only while nobody works on it, and no
      process goes down, except a sealer by the exception that a job raises.  That is a step only
      if the job is no longer on SEAL; otherwise it leads back to where it started, with the job
      delivered again. */
  ghost predicate FaultFree(c: Config, s: State, e: Event) {
    match e
    case Tick(_) => true
    case PublishJob(g, call) => call == OK
    case Count(g, call) => call == OK
    case Fetch(i, n) => NoSealerOn(s.sealers, n)
    case Reply(i, reply) => HealthyReply(c, s, e)
    case PublishReply(i, call) => call == OK
    case AckJob(i, arrives) => arrives
    case SealerCrash(i) =>
      && i < |s.sealers| && s.sealers[i].SHolding? && s.sealers[i].n !in s.seal.live
      && s.sealers[i].n < |s.seal.log| && !AnswerableJob(c, s.seal.log[s.sealers[i].n])
    case Deliver(j, n) => NoCacherOn(s.cachers, n)
    case Decode(j, nakSent) => nakSent
    case HSet(j, call) => call == OK
    case Expire(j, call) => call == OK
    case NakSave(j, sent) => sent
    case AckReply(j, arrives) => arrives
    case Request(_, _, _) => false
    case GatewayCrash(_) => false
    case CacherCrash(_) => false
  }

  // ---------- the measure ----------

  /** Steps a CACHE message still costs, and steps a SEAL message does, with the CACHE message it
      turns into. */
  const PER_REPLY: nat := 5
  const PER_JOB: nat := 9

  function GatewayWeight(pc: GatewayPc): nat {
    match pc case GIdle => 0 case GPublishing(_, _) => PER_JOB + 2 case GCounting(_) => 1
  }

  function SealerWeight(pc: SealerPc): nat {
    match pc
    case SIdle => 0
    case SHolding(_) => PER_REPLY + 3
    case SSealed(_, _) => PER_REPLY + 2
    case SPublished(_) => 1
  }

  /** A delivery that has been nakked, or is going to be, puts its message back to work. */
  function CacherWeight(pc: CacherPc): nat {
    match pc
    case CIdle => 0
    case CHolding(_) => 4
    case CSaving(_, _, nakked) => 3
    case CExpiring(_, _, nakked) => 2
    case CFailed(_, nakked) => PER_REPLY + 2
    case CAcking(_, nakked, saved) => if nakked then PER_REPLY + 1 else 1
  }

  function Sum<T>(pcs: seq<T>, weight: T -> nat): nat {
    if pcs == [] then 0 else weight(pcs[0]) + Sum(pcs[1..], weight)
  }

  lemma {:induction false} SumUpdate<T>(pcs: seq<T>, weight: T -> nat, k: nat, pc: T)
    requires k < |pcs|
    ensures Sum(pcs[k := pc], weight) + weight(pcs[k]) == Sum(pcs, weight) + weight(pc)
    decreases |pcs|
  {
    if k == 0 {
      assert pcs[0 := pc][1..] == pcs[1..];
    } else {
      SumUpdate(pcs[1..], weight, k - 1, pc);
      assert pcs[k := pc][1..] == pcs[1..][k - 1 := pc];
    }
  }

  predicate NoSealerOn(pcs: seq<SealerPc>, n: nat) { forall i :: 0 <= i < |pcs| ==> pcs[i].SIdle? || pcs[i].n != n }

  predicate NoCacherOn(pcs: seq<CacherPc>, n: nat) { forall j :: 0 <= j < |pcs| ==> pcs[j].CIdle? || pcs[j].n != n }

  /** Retained messages nobody works on. */
  function IdleJobs(s: State): set<nat> { set n | n in s.seal.live && NoSealerOn(s.sealers, n) }

  function IdleReplies(s: State): set<nat> { set n | n in s.cache.live && NoCacherOn(s.cachers, n) }

  function Measure(s: State): nat {
    PER_JOB * |IdleJobs(s)| + PER_REPLY * |IdleReplies(s)|
    + Sum(s.gateways, GatewayWeight) + Sum(s.sealers, SealerWeight) + Sum(s.cachers, CacherWeight)
  }

  lemma GatewayMeasure(c: Config, s: State, e: Event)
    requires Shape(c, s) && GatewayEnabled(s, e) && FaultFree(c, s, e)
    ensures Measure(GatewayStep(c, s, e)) < Measure(s)
  {
    hide K.IsUuid, R.Incr;
    var s' := GatewayStep(c, s, e);
    SumUpdate(s.gateways, GatewayWeight, e.g, s'.gateways[e.g]);
    assert s'.gateways == s.gateways[e.g := s'.gateways[e.g]];
    assert IdleReplies(s') == IdleReplies(s);
    assert IdleJobs(s') <= IdleJobs(s) + {|s.seal.log|};
    SubsetSize(IdleJobs(s'), IdleJobs(s) + {|s.seal.log|});
    if e.Count? { assert IdleJobs(s') == IdleJobs(s); }
  }

  lemma SealerMoves(pcs: seq<SealerPc>, i: nat, pc: SealerPc)
    requires i < |pcs|
    ensures forall n :: NoSealerOn(pcs[i := pc], n) && (pcs[i].SIdle? || pcs[i].n != n) ==> NoSealerOn(pcs, n)
    ensures !pc.SIdle? ==> !NoSealerOn(pcs[i := pc], pc.n)
  {
    forall n | NoSealerOn(pcs[i := pc], n) && (pcs[i].SIdle? || pcs[i].n != n) ensures NoSealerOn(pcs, n) {
      assert forall k :: 0 <= k < |pcs| && k != i ==> pcs[i := pc][k] == pcs[k];
    }
    if !pc.SIdle? { assert pcs[i := pc][i].n == pc.n; }
  }

  lemma SealerMeasure(c: Config, s: State, e: Event)
    requires Shape(c, s) && SealerEnabled(c, s, e) && FaultFree(c, s, e)
    ensures Measure(SealerStep(c, s, e)) < Measure(s)
  {
    hide S.Replies, NoSealerOn, W.Publish, Shape;
    var s' := SealerStep(c, s, e);
    SealerMoves(s.sealers, e.i, s'.sealers[e.i]);
    SumUpdate(s.sealers, SealerWeight, e.i, s'.sealers[e.i]);
    assert s'.sealers == s.sealers[e.i := s'.sealers[e.i]];
    if e.Fetch? {
      assert e.n in IdleJobs(s) && IdleJobs(s') <= IdleJobs(s) - {e.n};
      SubsetSize(IdleJobs(s'), IdleJobs(s) - {e.n});
    } else {
      assert IdleJobs(s') <= IdleJobs(s);
      SubsetSize(IdleJobs(s'), IdleJobs(s));
    }
    if e.PublishReply? {
      assert IdleReplies(s') <= IdleReplies(s) + {|s.cache.log|} by {
        PublishLive(s.cache, s.seal.log[s.sealers[e.i].n].id, Json(s.sealers[e.i].reply), s.now, c.window);
      }
      SubsetSize(IdleReplies(s'), IdleReplies(s) + {|s.cache.log|});
    } else {
      assert IdleReplies(s') == IdleReplies(s);
    }
  }

  lemma PublishLive<T>(q: W.Queue<T>, id: string, payload: Payload<T>, now: nat, window: nat)
    ensures W.Publish(q, id, payload, now, window).live <= q.live + {|q.log|}
  {
  }

  lemma CacherMoves(pcs: seq<CacherPc>, j: nat, pc: CacherPc)
    requires j < |pcs|
    ensures forall n :: NoCacherOn(pcs[j := pc], n) && (pcs[j].CIdle? || pcs[j].n != n) ==> NoCacherOn(pcs, n)
    ensures !pc.CIdle? ==> !NoCacherOn(pcs[j := pc], pc.n)
  {
    forall n | NoCacherOn(pcs[j := pc], n) && (pcs[j].CIdle? || pcs[j].n != n) ensures NoCacherOn(pcs, n) {
      assert forall k :: 0 <= k < |pcs| && k != j ==> pcs[j := pc][k] == pcs[k];
    }
    if !pc.CIdle? { assert pcs[j := pc][j].n == pc.n; }
  }

  /** How one cacher moves in a fault-free step. */
  lemma CacherMove(c: Config, s: State, e: Event)
    requires Inv(c, s) && CacherEnabled(s, e) && FaultFree(c, s, e)
    ensures var (pc, s') := (s.cachers[e.j], CacherStep(s, e)); var pc' := s'.cachers[e.j];
            && s'.cachers == s.cachers[e.j := pc'] && s'.cache.live <= s.cache.live
            && (if e.Deliver? then
                  pc.CIdle? && e.n in s.cache.live && NoCacherOn(s.cachers, e.n) && pc' == CHolding(e.n)
                else if e.AckReply? then pc.CAcking? && pc'.CIdle? && (!pc.nakked ==> pc.n !in s'.cache.live)
                else !pc.CIdle? && !pc'.CIdle? && pc'.n == pc.n && CacherWeight(pc') < CacherWeight(pc))
  {
    hide S.Replies, K.IsUuid, C.Decoded, R.HSet, R.Expire, R.Live, D.SignedKey, Jobs, Kept, Store, NoCacherOn;
    assert CacherOk(s, s.cachers[e.j]);
    if e.Decode? { assert ReplyOk(c, s, s.cache.log[s.cachers[e.j].n]); }
    if e.HSet? { WorkerHasId(c, s, e.j); }
  }

  lemma WorkerHasId(c: Config, s: State, j: nat)
    requires Inv(c, s) && j < |s.cachers| && s.cachers[j].CSaving?
    ensures s.cachers[j].doc.transactionId != ""
  {
    hide S.Replies, K.IsUuid, Kept, Store;
    assert CacherOk(s, s.cachers[j]);
    var m := s.cache.log[s.cachers[j].n];
    assert ReplyOk(c, s, m);
    ReplyFields(c.lib, m.payload.value.sealerBackend, Job(s.requests, m.id), m.payload.value);
    K.UuidHasNoColon(m.id);
  }

  lemma CacherMeasure(c: Config, s: State, e: Event)
    requires Inv(c, s) && CacherEnabled(s, e) && FaultFree(c, s, e)
    ensures Measure(CacherStep(s, e)) < Measure(s)
  {
    CacherMove(c, s, e);
    CacherFrame(s, e);
    hide Inv, CacherStep, CacherEnabled, FaultFree, NoCacherOn, NoSealerOn;
    var s', pc := CacherStep(s, e), s.cachers[e.j];
    CacherMoves(s.cachers, e.j, s'.cachers[e.j]);
    SumUpdate(s.cachers, CacherWeight, e.j, s'.cachers[e.j]);
    assert IdleJobs(s') == IdleJobs(s);
    if e.Deliver? {
      assert e.n in IdleReplies(s) && IdleReplies(s') <= IdleReplies(s) - {e.n};
      SubsetSize(IdleReplies(s'), IdleReplies(s) - {e.n});
    } else if e.AckReply? && pc.nakked {
      assert IdleReplies(s') <= IdleReplies(s) + {pc.n};
      SubsetSize(IdleReplies(s'), IdleReplies(s) + {pc.n});
    } else {
      assert IdleReplies(s') <= IdleReplies(s);
      SubsetSize(IdleReplies(s'), IdleReplies(s));
    }
  }

  /** Every fault-free step but the passing of time makes the measure smaller. */
  lemma MeasureDecreases(c: Config, s: State, e: Event)
    requires Inv(c, s) && Enabled(c, s, e) && FaultFree(c, s, e)
    ensures if e.Tick? then Measure(Step(c, s, e)) == Measure(s) else Measure(Step(c, s, e)) < Measure(s)
  {
    hide Inv, Measure, FaultFree, GatewayEnabled, SealerEnabled, CacherEnabled, GatewayStep, SealerStep, CacherStep;
    if e.Tick? {
      TickIsStep(c, s, e);
      TickMeasure(s, e.millis);
    } else if GatewayEnabled(s, e) {
      GatewayStepIsStep(c, s, e);
      assert Shape(c, s) by { InvShape(c, s); }
      GatewayMeasure(c, s, e);
    } else if SealerEnabled(c, s, e) {
      SealerStepIsStep(c, s, e);
      assert Shape(c, s) by { InvShape(c, s); }
      SealerMeasure(c, s, e);
    } else if CacherEnabled(s, e) {
      CacherStepIsStep(c, s, e);
      CacherMeasure(c, s, e);
    }
  }

  lemma InvShape(c: Config, s: State)
    requires Inv(c, s)
    ensures Shape(c, s)
  {
  }

  lemma TickMeasure(s: State, millis: nat)
    ensures Measure(s.(now := s.now + millis)) == Measure(s)
  {
    var s' := s.(now := s.now + millis);
    assert IdleJobs(s') == IdleJobs(s) && IdleReplies(s') == IdleReplies(s);
  }

  ghost predicate FaultFreeRun(c: Config, s: State, events: seq<Event>)
    requires Possible(c, s, events)
    decreases |events|
  {
    events == [] || (FaultFree(c, s, events[0]) && FaultFreeRun(c, Step(c, s, events[0]), events[1..]))
  }

  /** The steps of a schedule that are not the passing of time. */
  function Work(events: seq<Event>): nat {
    if events == [] then 0 else (if events[0].Tick? then 0 else 1) + Work(events[1..])
  }

  /** Draining terminates: from any reachable state, with any crash, overlap or failure behind it, a
      fault-free schedule takes at most `Measure` steps. */
  lemma {:induction false} DrainTerminates(c: Config, s: State, events: seq<Event>)
    requires Inv(c, s) && Possible(c, s, events) && FaultFreeRun(c, s, events)
    ensures Work(events) + Measure(Run(c, s, events)) <= Measure(s)
    decreases |events|
  {
    hide Inv, Enabled, Step, Measure, FaultFree;
    if events != [] {
      MeasureDecreases(c, s, events[0]);
      StepInv(c, s, events[0]);
      DrainTerminates(c, Step(c, s, events[0]), events[1..]);
    }
  }

  // ---------- where it stops ----------

  /** Nothing fault-free is left to do. */
  ghost predicate Quiescent(c: Config, s: State) {
    forall e :: Enabled(c, s, e) && FaultFree(c, s, e) ==> e.Tick?
  }

  ghost predicate Drained(s: State) {
    s.seal.live == {} && s.cache.live == {} && forall id :: W.Stored(s.seal, id) ==> id in s.saved || id in s.forfeited
  }

  lemma QuiescentCachers(c: Config, s: State)
    requires Inv(c, s) && Quiescent(c, s) && c.cachers >= 1
    ensures (forall j :: 0 <= j < |s.cachers| ==> s.cachers[j].CIdle?) && s.cache.live == {}
  {
    hide Enabled, Step, CacherStep, Jobs, Replies, Kept, Store;
    forall j | 0 <= j < |s.cachers| ensures s.cachers[j].CIdle? {
      var e := match s.cachers[j]
        case CIdle => Tick(0)
        case CHolding(_) => Decode(j, true)
        case CSaving(_, _, _) => HSet(j, OK)
        case CExpiring(_, _, _) => Expire(j, OK)
        case CFailed(_, _) => NakSave(j, true)
        case CAcking(_, _, _) => AckReply(j, true);
      if !s.cachers[j].CIdle? { CacherStepIsStep(c, s, e); }
    }
    if n :| n in s.cache.live {
      CacherStepIsStep(c, s, Deliver(0, n));
    }
  }

  // ---------- what it leaves ----------

  /** A job on SEAL that no healthy sealer can answer, and for which no sealer holds a reply that an
      earlier fault produced. */
  predicate Stuck(c: Config, s: State, n: nat) {
    n in s.seal.live && n < |s.seal.log| && !AnswerableJob(c, s.seal.log[n]) && NoReplyFor(s.sealers, n)
  }

  predicate NoReplyFor(pcs: seq<SealerPc>, n: nat) {
    forall i :: 0 <= i < |pcs| ==> !HasReply(pcs[i], n)
  }

  predicate HasReply(pc: SealerPc, n: nat) { (pc.SSealed? || pc.SPublished?) && pc.n == n }

  lemma ReplyMoves(pcs: seq<SealerPc>, i: nat, pc: SealerPc, n: nat)
    requires i < |pcs|
    ensures if HasReply(pc, n) then !NoReplyFor(pcs[i := pc], n)
            else NoReplyFor(pcs[i := pc], n) || !NoReplyFor(pcs, n)
    ensures if HasReply(pcs[i], n) then !NoReplyFor(pcs, n)
            else NoReplyFor(pcs, n) || !NoReplyFor(pcs[i := pc], n)
  {
    hide HasReply;
    assert HasReply(pc, n) ==> HasReply(pcs[i := pc][i], n);
    if k :| 0 <= k < |pcs| && k != i && HasReply(pcs[k], n) { assert pcs[i := pc][k] == pcs[k]; }
  }

  /** From `s` to `s'`, the jobs that were stuck are those that still are, and of the new ones those
      that are not answerable. */
  ghost predicate StuckAlike(c: Config, s: State, s': State) {
    && s.seal.log <= s'.seal.log
    && (forall n :: 0 <= n < |s.seal.log| ==> (Stuck(c, s', n) <==> Stuck(c, s, n)))
    && (forall n :: |s.seal.log| <= n < |s'.seal.log| ==> (Stuck(c, s', n) <==> !AnswerableJob(c, s'.seal.log[n])))
  }

  lemma GatewayStuck(c: Config, s: State, e: Event)
    requires Shape(c, s) && GatewayEnabled(s, e)
    ensures StuckAlike(c, s, GatewayStep(c, s, e))
  {
    hide K.IsUuid, AnswerableJob;
  }

  lemma SealerStuck(c: Config, s: State, e: Event)
    requires SealerEnabled(c, s, e) && FaultFree(c, s, e)
    ensures StuckAlike(c, s, SealerStep(c, s, e))
  {
    hide S.Replies, W.Publish, NoSealerOn;
    var s' := SealerStep(c, s, e);
    assert s'.sealers == s.sealers[e.i := s'.sealers[e.i]];
    if e.Reply? { assert AnswerableJob(c, s.seal.log[s.sealers[e.i].n]); }
    hide AnswerableJob, HealthyReply, NoReplyFor;
    forall n | 0 <= n < |s.seal.log| ensures Stuck(c, s', n) <==> Stuck(c, s, n) {
      ReplyMoves(s.sealers, e.i, s'.sealers[e.i], n);
    }
  }

  lemma StuckStep(c: Config, s: State, e: Event)
    requires Inv(c, s) && Enabled(c, s, e) && FaultFree(c, s, e)
    ensures StuckAlike(c, s, Step(c, s, e))
  {
    hide Inv, StuckAlike, FaultFree, GatewayEnabled, SealerEnabled, CacherEnabled, GatewayStep, SealerStep, CacherStep;
    if GatewayEnabled(s, e) {
      GatewayStepIsStep(c, s, e);
      assert Shape(c, s) by { InvShape(c, s); }
      GatewayStuck(c, s, e);
    } else if SealerEnabled(c, s, e) {
      SealerStepIsStep(c, s, e);
      SealerStuck(c, s, e);
    } else if CacherEnabled(s, e) {
      CacherStepIsStep(c, s, e);
      CacherFrame(s, e);
      SameStuck(c, s, CacherStep(s, e));
    } else {
      SameStuck(c, s, s.(now := s.now + e.millis));
    }
  }

  lemma SameStuck(c: Config, s: State, s': State)
    requires s'.seal == s.seal && s'.sealers == s.sealers
    ensures StuckAlike(c, s, s')
  {
  }

  lemma {:induction false} StuckRun(c: Config, s: State, events: seq<Event>)
    requires Inv(c, s) && Possible(c, s, events) && FaultFreeRun(c, s, events)
    ensures Inv(c, Run(c, s, events)) && StuckAlike(c, s, Run(c, s, events))
    decreases |events|
  {
    hide Inv, Enabled, Step, FaultFree, Stuck, AnswerableJob;
    if events != [] {
      StepInv(c, s, events[0]);
      StuckStep(c, s, events[0]);
      StuckRun(c, Step(c, s, events[0]), events[1..]);
    }
  }

  /** Where nothing is left to do, a sealer that is not idle holds a stuck job. */
  lemma QuiescentSealer(c: Config, s: State, i: nat)
    requires P.Sound(c.lib) && Inv(c, s) && Quiescent(c, s) && i < |s.sealers| && !s.sealers[i].SIdle?
    ensures s.sealers[i].SHolding? && s.sealers[i].n in s.seal.live && s.sealers[i].n < |s.seal.log|
            && !AnswerableJob(c, s.seal.log[s.sealers[i].n])
  {
    hide Enabled, Step, SealerStep, Replies, Kept, Store, S.Replies, S.Answers, P.Sound;
    var n := s.sealers[i].n;
    var m := s.seal.log[n];
    assert JobOk(s.requests, m);
    if s.sealers[i].SSealed? {
      SealerStepIsStep(c, s, PublishReply(i, OK));
    } else if s.sealers[i].SPublished? {
      SealerStepIsStep(c, s, AckJob(i, true));
    } else if AnswerableJob(c, m) {
      var reply := S.AnswerableHasAnswer(c.lib, c.backends[i], m.payload.value);
      AnswerIsReply(c, c.backends[i], m.payload.value, reply);
      SealerStepIsStep(c, s, Reply(i, reply));
    } else if n !in s.seal.live {
      SealerStepIsStep(c, s, SealerCrash(i));
    }
  }

  lemma AnswerIsReply(c: Config, backend: string, req: SealRequest, reply: SealReply)
    requires S.Answers(c.lib, backend, req, reply)
    ensures S.Replies(c.lib, backend, req, reply)
  {
  }

  /** Hence SEAL is empty there exactly when nothing is stuck. */
  lemma EmptyIffNothingStuck(c: Config, s: State)
    requires P.Sound(c.lib) && Inv(c, s) && Quiescent(c, s) && |c.backends| >= 1
    ensures s.seal.live == {} <==> forall n :: 0 <= n < |s.seal.log| ==> !Stuck(c, s, n)
  {
    hide P.Sound, AnswerableJob, Enabled, Step, Jobs, Replies, Kept, Store, Quiescent;
    if s.seal.live != {} {
      forall i | 0 <= i < |s.sealers| && !s.sealers[i].SIdle?
        ensures s.sealers[i].SHolding? && s.sealers[i].n in s.seal.live && s.sealers[i].n < |s.seal.log|
                && !AnswerableJob(c, s.seal.log[s.sealers[i].n])
      {
        QuiescentSealer(c, s, i);
      }
      if forall i :: 0 <= i < |s.sealers| ==> s.sealers[i].SIdle? {
        QuiescentIdle(c, s);
      } else {
        var i :| 0 <= i < |s.sealers| && !s.sealers[i].SIdle?;
        assert Stuck(c, s, s.sealers[i].n);
      }
    }
  }

  lemma QuiescentIdle(c: Config, s: State)
    requires Quiescent(c, s) && |s.sealers| >= 1 && forall i :: 0 <= i < |s.sealers| ==> s.sealers[i].SIdle?
    ensures s.seal.live == {}
  {
    hide Enabled, Step;
    if n :| n in s.seal.live {
      SealerStepIsStep(c, s, Fetch(0, n));
    }
  }

  /** Where nothing is left to do, drained means that SEAL is empty. */
  lemma DrainedIffEmpty(c: Config, s: State)
    requires Inv(c, s) && Quiescent(c, s) && c.cachers >= 1
    ensures Drained(s) <==> s.seal.live == {}
  {
    hide Shape, Jobs, Replies, Store, Quiescent, S.Replies;
    QuiescentCachers(c, s);
  }

  /** A fault-free schedule that cannot be continued has emptied both queues and settled every accepted
      id if and only if no job was stuck when it began and every job stored since is answerable.
      Any crashes, overlaps and failures may lie behind its start. */
  lemma DrainedIffNothingStuck(c: Config, s: State, events: seq<Event>)
    requires P.Sound(c.lib) && c.cachers >= 1 && |c.backends| >= 1
    requires Reachable(c, s) && Possible(c, s, events) && FaultFreeRun(c, s, events) && Quiescent(c, Run(c, s, events))
    ensures var end := Run(c, s, events);
            Drained(end) <==>
              && (forall n :: 0 <= n < |s.seal.log| ==> !Stuck(c, s, n))
              && (forall n :: |s.seal.log| <= n < |end.seal.log| ==> AnswerableJob(c, end.seal.log[n]))
  {
    hide P.Sound, Inv, Reachable, Quiescent, Enabled, Step, Stuck, AnswerableJob, Drained, FaultFreeRun;
    ReachableInv(c, s);
    StuckRun(c, s, events);
    DrainedIffEmpty(c, Run(c, s, events));
    EmptyIffNothingStuck(c, Run(c, s, events));
  }

  /** Such a schedule exists from every state. */
  lemma {:induction false} ScheduleExists(c: Config, s: State) returns (events: seq<Event>)
    requires Inv(c, s)
    ensures Possible(c, s, events) && FaultFreeRun(c, s, events) && Quiescent(c, Run(c, s, events))
    decreases Measure(s)
  {
    hide Inv, Enabled, Step, FaultFree, Measure;
    if Quiescent(c, s) {
      events := [];
    } else {
      var e :| Enabled(c, s, e) && FaultFree(c, s, e) && !e.Tick?;
      MeasureDecreases(c, s, e);
      StepInv(c, s, e);
      var rest := ScheduleExists(c, Step(c, s, e));
      events := [e] + rest;
      assert events[1..] == rest;
    }
  }

  /** While no PKCS#11 signer or metadata fails, this comes down to the uploads alone: wherever nothing
      is left to do, the pipeline has drained if and only if every job it ever accepted is
      answerable. */
  lemma DrainedIffAnswerable(c: Config, events: seq<Event>)
    requires P.Sound(c.lib) && c.cachers >= 1 && |c.backends| >= 1
    requires Possible(c, Init(c), events) && HealthyRun(c, Init(c), events) && Quiescent(c, Run(c, Init(c), events))
    ensures var s := Run(c, Init(c), events);
            Drained(s) <==> forall n :: 0 <= n < |s.seal.log| ==> AnswerableJob(c, s.seal.log[n])
  {
    hide P.Sound, Inv, Quiescent, Enabled, Step, Drained, HealthyRun, AnswerableJob;
    var s := Run(c, Init(c), events);
    InitInv(c);
    RunInv(c, Init(c), events);
    DrainedIffEmpty(c, s);
    EmptyIffNothingStuck(c, s);
    if n :| 0 <= n < |s.seal.log| && !AnswerableJob(c, s.seal.log[n]) { UnanswerableStays(c, events, n); }
  }

  /** In a run without lost naks, settled means saved: where it stops, both queues are empty and
      SaveSigned has returned nil for every accepted id, if every accepted job is answerable. */
  lemma EverythingIsSaved(c: Config, events: seq<Event>)
    requires P.Sound(c.lib) && c.cachers >= 1 && |c.backends| >= 1
    requires Possible(c, Init(c), events) && (forall k :: 0 <= k < |events| ==> !LostNak(events[k]))
    requires Quiescent(c, Run(c, Init(c), events))
    requires var log := Run(c, Init(c), events).seal.log; forall n :: 0 <= n < |log| ==> AnswerableJob(c, log[n])
    ensures var s := Run(c, Init(c), events);
            s.seal.live == {} && s.cache.live == {} && forall id :: W.Stored(s.seal, id) ==> id in s.saved
  {
    hide P.Sound, Inv, Quiescent, Enabled, Step, AnswerableJob;
    var s := Run(c, Init(c), events);
    InitInv(c);
    RunInv(c, Init(c), events);
    NothingForfeitedRun(c, Init(c), events);
    DrainedIffEmpty(c, s);
    EmptyIffNothingStuck(c, s);
  }

  /** Enforcing the declared `base64` tag would rule out the texts that do not decode, and nothing else:
      a tagged upload is answerable if and only if neither opening nor signing its PDF raises
      anything but the exceptions that `Seal` catches. */
  lemma TaggedIsAnswerableIff(c: Config, req: SealRequest)
    requires Base64.MatchesTag(req.data)
    ensures Base64.UrlSafeDecode(req.data).Some?
    ensures S.Answerable(c.lib, req) <==>
            && !c.lib.open(Base64.UrlSafeDecode(req.data).value).OpenRaises?
            && (S.ToSign(c.lib, req).Some? ==> !c.lib.signing(S.ToSign(c.lib, req).value).SignRaises?)
  {
    hide Base64.MatchesTag, Base64.UrlSafeDecode;
    Base64.TagImpliesDecodable(req.data);
  }
}
