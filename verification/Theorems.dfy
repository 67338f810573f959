/** Safety of the pipeline in every reachable state: nothing accepted is lost, nothing is
    cross-wired, and what a client can read is traceable to its transaction. */
module Theorems {
  import opened Common
  import opened Pipeline
  import opened Safety
  import C = Cacher
  import D = DocStore
  import K = Keywords
  import P = Pdf
  import R = Redict
  import S = Sealer
  import V = Validator
  import W = WorkQueue

  ghost predicate Reachable(c: Config, s: State) {
    exists events: seq<Event> :: Possible(c, Init(c), events) && Run(c, Init(c), events) == s
  }

  lemma ReachableInv(c: Config, s: State)
    requires Reachable(c, s)
    ensures Inv(c, s)
  {
    hide Inv, Enabled, Step;
    var events: seq<Event> :| Possible(c, Init(c), events) && Run(c, Init(c), events) == s;
    InitInv(c);
    RunInv(c, Init(c), events);
  }

  // ---------- no accepted job is lost ----------

  /** Whatever crashed, was redelivered, deduplicated or failed: an id stored on SEAL is still on
      SEAL, or its reply is on CACHE, or a SaveSigned for it returned nil, or its last copy went
      with an ack that followed a failed save whose naks never left the client. */
  lemma NoJobLost(c: Config, s: State, id: string)
    requires Reachable(c, s) && W.Stored(s.seal, id)
    ensures W.Retained(s.seal, id) || W.Retained(s.cache, id) || id in s.saved || id in s.forfeited
  {
    hide S.Replies, Jobs, Replies, Shape, Store;
    ReachableInv(c, s);
  }

  /** A nak that cannot be handed to the connection. */
  predicate LostNak(e: Event) { e.NakSave? && !e.sent }

  /** While no nak is lost, every failed delivery ends nakked and nothing is given up. */
  ghost predicate NothingForfeited(s: State) {
    && s.forfeited == {}
    && forall j :: 0 <= j < |s.cachers| && s.cachers[j].CAcking? && !s.cachers[j].saved ==> s.cachers[j].nakked
  }

  lemma NothingForfeitedStep(c: Config, s: State, e: Event)
    requires NothingForfeited(s) && Enabled(c, s, e) && !LostNak(e)
    ensures NothingForfeited(Step(c, s, e))
  {
    hide S.Replies, K.IsUuid, C.Decoded, R.HSet, R.Expire, R.Live, D.SignedKey;
  }

  lemma {:induction false} NothingForfeitedRun(c: Config, s: State, events: seq<Event>)
    requires NothingForfeited(s) && Possible(c, s, events) && (forall k :: 0 <= k < |events| ==> !LostNak(events[k]))
    ensures NothingForfeited(Run(c, s, events))
    decreases |events|
  {
    hide NothingForfeited, Enabled, Step;
    if events != [] {
      NothingForfeitedStep(c, s, events[0]);
      NothingForfeitedRun(c, Step(c, s, events[0]), events[1..]);
    }
  }

  /** So no run in which every nak can be sent loses a job. */
  lemma NoJobLostWhenNaksAreSent(c: Config, events: seq<Event>, id: string)
    requires Possible(c, Init(c), events) && (forall k :: 0 <= k < |events| ==> !LostNak(events[k]))
    ensures var s := Run(c, Init(c), events);
            W.Stored(s.seal, id) ==> W.Retained(s.seal, id) || W.Retained(s.cache, id) || id in s.saved
  {
    hide Enabled, Step, Inv;
    var s := Run(c, Init(c), events);
    NothingForfeitedRun(c, Init(c), events);
    if W.Stored(s.seal, id) { NoJobLost(c, s, id); }
  }

  /** At some moment of the run, a nak on a message for `id` is lost. */
  ghost predicate NakLostFor(c: Config, s: State, events: seq<Event>, id: string)
    requires Possible(c, s, events)
    decreases |events|
  {
    events != []
    && (LostNakOn(s, events[0], id) || NakLostFor(c, Step(c, s, events[0]), events[1..], id))
  }

  ghost predicate LostNakOn(s: State, e: Event, id: string) {
    LostNak(e) && e.j < |s.cachers| && s.cachers[e.j].CFailed? && s.cachers[e.j].n < |s.cache.log|
    && s.cache.log[s.cachers[e.j].n].id == id
  }

  /** A cacher is about to give `id` up. */
  ghost predicate GivingUp(s: State, id: string) {
    exists j :: 0 <= j < |s.cachers| && GivesUp(s.cache, s.cachers[j], id)
  }

  predicate GivesUp(cache: W.Queue<SealReply>, pc: CacherPc, id: string) {
    pc.CAcking? && !pc.saved && !pc.nakked && pc.n < |cache.log| && cache.log[pc.n].id == id
  }

  lemma GivenUpBefore(c: Config, s: State, e: Event, id: string)
    requires Inv(c, s) && Enabled(c, s, e) && (id in Step(c, s, e).forfeited || GivingUp(Step(c, s, e), id))
    ensures id in s.forfeited || GivingUp(s, id) || LostNakOn(s, e, id)
  {
    hide S.Replies, K.IsUuid, C.Decoded, R.HSet, R.Expire, R.Live, D.SignedKey, Step, Enabled, Jobs, Kept, Store;
    if CacherEnabled(s, e) {
      CacherStepIsStep(c, s, e);
      CacherFrame(s, e);
      assert CacherOk(s, s.cachers[e.j]);
      var s' := CacherStep(s, e);
      if GivingUp(s', id) {
        var j :| 0 <= j < |s'.cachers| && GivesUp(s'.cache, s'.cachers[j], id);
        if j != e.j { assert s.cachers[j] == s'.cachers[j]; }
      }
    } else {
      OthersFrame(c, s, e);
    }
  }

  lemma {:induction false} GivenUpRun(c: Config, s: State, events: seq<Event>, id: string)
    requires Inv(c, s) && Possible(c, s, events) && id in Run(c, s, events).forfeited
    ensures id in s.forfeited || GivingUp(s, id) || NakLostFor(c, s, events, id)
    decreases |events|
  {
    hide Inv, Enabled, Step, GivingUp, LostNakOn;
    if events != [] {
      StepInv(c, s, events[0]);
      GivenUpRun(c, Step(c, s, events[0]), events[1..], id);
      if id in Step(c, s, events[0]).forfeited || GivingUp(Step(c, s, events[0]), id) {
        GivenUpBefore(c, s, events[0], id);
      }
    }
  }

  /** An id is given up only after a nak on a message of that very id was lost. */
  lemma ForfeitedHadLostNak(c: Config, events: seq<Event>, id: string)
    requires Possible(c, Init(c), events) && id in Run(c, Init(c), events).forfeited
    ensures NakLostFor(c, Init(c), events, id)
  {
    hide Inv, Enabled, Step, LostNakOn;
    InitInv(c);
    GivenUpRun(c, Init(c), events, id);
  }

  // ---------- saved means it could be read ----------

  /** At some moment of the run a document is readable under `id`. */
  ghost predicate EverReadable(c: Config, s: State, events: seq<Event>, id: string)
    requires Possible(c, s, events)
    decreases |events|
  {
    || D.ExistsSigned(s.kv, id, s.now)
    || (events != [] && EverReadable(c, Step(c, s, events[0]), events[1..], id))
  }

  predicate Expires(pc: CacherPc, id: string) { pc.CExpiring? && pc.doc.transactionId == id }

  /** Some cacher has had its HSET for `id` confirmed and is at the EXPIRE. */
  ghost predicate Expiring(s: State, id: string) { exists j :: 0 <= j < |s.cachers| && Expires(s.cachers[j], id) }

  /** A save is preceded by a confirmed HSET, and that by nothing but the HSET itself. */
  lemma SavedBefore(c: Config, s: State, e: Event, id: string)
    requires Enabled(c, s, e) && (id in Step(c, s, e).saved || Expiring(Step(c, s, e), id))
    ensures id in s.saved || Expiring(s, id) || D.ExistsSigned(Step(c, s, e).kv, id, Step(c, s, e).now)
  {
    hide S.Replies, K.IsUuid, C.Decoded, D.SignedKey, Step, Enabled;
    if CacherEnabled(s, e) {
      CacherStepIsStep(c, s, e);
      CacherFrame(s, e);
      var s' := CacherStep(s, e);
      if Expiring(s', id) {
        var j :| 0 <= j < |s'.cachers| && Expires(s'.cachers[j], id);
        if j != e.j { assert s.cachers[j] == s'.cachers[j]; }
      }
    } else {
      OthersFrame(c, s, e);
    }
  }

  lemma {:induction false} SavedRun(c: Config, s: State, events: seq<Event>, id: string)
    requires Possible(c, s, events) && id in Run(c, s, events).saved
    ensures id in s.saved || Expiring(s, id) || EverReadable(c, s, events, id)
    decreases |events|
  {
    hide Enabled, Step, Expiring, D.ExistsSigned;
    if events != [] {
      SavedRun(c, Step(c, s, events[0]), events[1..], id);
      if id in Step(c, s, events[0]).saved || Expiring(Step(c, s, events[0]), id) {
        SavedBefore(c, s, events[0], id);
      }
    }
  }

  /** What the pipeline calls saved, a client could have read: at some moment of the run a document was
      there under the id. */
  lemma SavedWasReadable(c: Config, events: seq<Event>, id: string)
    requires Possible(c, Init(c), events) && id in Run(c, Init(c), events).saved
    ensures EverReadable(c, Init(c), events, id)
  {
    hide Enabled, Step;
    SavedRun(c, Init(c), events, id);
  }

  // ---------- header and payload agree ----------

  /** Every message in either stream, and everything a process holds, carries a non-empty payload id
      equal to its header.  Hence the decode failure of the cacher, the missing-id error of
      SaveSigned and the JSON error of the sealer cannot come from the pipeline itself. */
  lemma HeaderIsPayloadId(c: Config, s: State)
    requires Reachable(c, s)
    ensures forall n :: 0 <= n < |s.seal.log| ==>
              s.seal.log[n].payload.Json? && s.seal.log[n].payload.value.transactionId == s.seal.log[n].id != ""
    ensures forall n :: 0 <= n < |s.cache.log| ==>
              s.cache.log[n].payload.Json? && s.cache.log[n].payload.value.transactionId == s.cache.log[n].id != ""
    ensures forall i :: 0 <= i < |s.sealers| && s.sealers[i].SSealed? ==>
              s.sealers[i].n < |s.seal.log| && s.sealers[i].reply.transactionId == s.seal.log[s.sealers[i].n].id
    ensures forall j :: 0 <= j < |s.cachers| && (s.cachers[j].CSaving? || s.cachers[j].CExpiring?) ==>
              s.cachers[j].n < |s.cache.log| && s.cachers[j].doc.transactionId == s.cache.log[s.cachers[j].n].id
  {
    hide S.Replies, Kept, Store;
    ReachableInv(c, s);
    forall n | 0 <= n < |s.seal.log| ensures s.seal.log[n].id != "" {
      assert JobOk(s.requests, s.seal.log[n]);
      K.UuidHasNoColon(s.seal.log[n].id);
    }
    forall n | 0 <= n < |s.cache.log|
      ensures s.cache.log[n].payload.Json? && s.cache.log[n].payload.value.transactionId == s.cache.log[n].id != ""
    {
      var m := s.cache.log[n];
      assert ReplyOk(c, s, m);
      ReplyFields(c.lib, m.payload.value.sealerBackend, Job(s.requests, m.id), m.payload.value);
      K.UuidHasNoColon(m.id);
    }
    forall i | 0 <= i < |s.sealers| && s.sealers[i].SSealed?
      ensures s.sealers[i].n < |s.seal.log| && s.sealers[i].reply.transactionId == s.seal.log[s.sealers[i].n].id
    {
      assert SealerOk(c, s, s.sealers[i]);
      var id := s.seal.log[s.sealers[i].n].id;
      ReplyFields(c.lib, s.sealers[i].reply.sealerBackend, Job(s.requests, id), s.sealers[i].reply);
    }
    forall j | 0 <= j < |s.cachers| && (s.cachers[j].CSaving? || s.cachers[j].CExpiring?)
      ensures s.cachers[j].n < |s.cache.log| && s.cachers[j].doc.transactionId == s.cache.log[s.cachers[j].n].id
    {
      assert CacherOk(s, s.cachers[j]);
    }
  }

  // ---------- what is in the store ----------

  /** The stored document for `t` was written from a CACHE message for `t`, which holds some sealer's
      reply to the job accepted under `t`. */
  lemma StoredIsReply(c: Config, s: State, t: string) returns (n: nat)
    requires Inv(c, s) && D.SignedKey(t) in s.kv
    ensures n < |s.cache.log| && s.cache.log[n].id == t && s.cache.log[n].payload.Json?
    ensures ReplyTo(c, s, t, s.cache.log[n].payload.value)
    ensures var (doc, reply) := (s.kv[D.SignedKey(t)].doc, s.cache.log[n].payload.value);
            && doc.transactionId == reply.transactionId == t
            && doc.data == reply.data && doc.sealerBackend == reply.sealerBackend
            && doc.message == "" && doc.revokedAt == 0 && doc.reason == ""
  {
    hide S.Replies, Kept, Jobs, Shape;
    var doc := s.kv[D.SignedKey(t)].doc;
    D.SignedKeyInjective(t, doc.transactionId);
    assert Written(s, doc);
    n :| 0 <= n < |s.cache.log| && C.Decoded(s.cache.log[n].payload) == doc;
    assert ReplyOk(c, s, s.cache.log[n]);
    var reply := s.cache.log[n].payload.value;
    ReplyFields(c.lib, reply.sealerBackend, Job(s.requests, s.cache.log[n].id), reply);
  }

  /** Nothing is lost or changed between a sealer and a client: every entry carries, field by field, what
      some message on CACHE under its id carries. */
  lemma EntryIsFromCache(c: Config, s: State, t: string)
    requires Reachable(c, s) && D.SignedKey(t) in s.kv
    ensures exists n :: 0 <= n < |s.cache.log| && Carries(s.cache.log[n], t, s.kv[D.SignedKey(t)].doc)
  {
    hide Inv;
    ReachableInv(c, s);
    var n := StoredIsReply(c, s, t);
    assert Carries(s.cache.log[n], t, s.kv[D.SignedKey(t)].doc);
  }

  predicate Carries(m: W.Msg<SealReply>, t: string, doc: Document) {
    && m.id == t && m.payload.Json?
    && doc.transactionId == m.payload.value.transactionId == t
    && doc.data == m.payload.value.data
    && doc.sealerBackend == m.payload.value.sealerBackend
  }

  /** No cross-wiring: the entry for `t` names `t` and a sealer that exists, carries none of the
      revocation fields, and its data is empty or a seal of the very PDF accepted under `t`: a PDF
      with that content, `t` as its only keyword, and a signature. */
  lemma Provenance(c: Config, s: State, t: string)
    requires Reachable(c, s) && D.SignedKey(t) in s.kv
    ensures t in s.requests && W.Stored(s.seal, t)
    ensures var doc := s.kv[D.SignedKey(t)].doc;
            && doc.transactionId == t && doc.sealerBackend in c.backends
            && doc.message == "" && doc.revokedAt == 0 && doc.reason == ""
            && (doc.data == "" || S.IsSealText(c.lib, SealRequest(t, s.requests[t]), doc.data))
            && (doc.data == "" || !P.Sound(c.lib) || S.IsLabelledCopy(c.lib, SealRequest(t, s.requests[t]), doc.data))
  {
    hide Inv, S.IsSealText, S.IsLabelledCopy, S.Replies, P.Sound;
    ReachableInv(c, s);
    var n := StoredIsReply(c, s, t);
    var reply := s.cache.log[n].payload.value;
    S.ReplyShape(c.lib, reply.sealerBackend, Job(s.requests, t), reply);
    if P.Sound(c.lib) && reply.data != "" {
      S.SealIsLabelledCopy(c.lib, reply.sealerBackend, Job(s.requests, t), reply);
    }
  }

  /** A read is unambiguous: an empty id comes back exactly when no live entry exists, and any
      other answer names the id asked for. */
  lemma UnambiguousMiss(c: Config, s: State, t: string)
    requires Reachable(c, s) && t != ""
    ensures D.GetSigned(s.kv, t, s.now).transactionId == (if D.ExistsSigned(s.kv, t, s.now) then t else "")
    ensures !D.ExistsSigned(s.kv, t, s.now) ==> D.GetSigned(s.kv, t, s.now) == ZERO
  {
    hide Inv, S.Replies, S.IsSealText;
    if D.ExistsSigned(s.kv, t, s.now) { Provenance(c, s, t); }
  }

  /** End to end: whatever a client reads under `t` with non-empty data, handing it to the validator
      yields exactly `t`, unless the signature check itself raises, and the PDF inside has the
      content of the one uploaded under `t`. */
  lemma Traceable(c: Config, s: State, t: string, backend: string, check: V.Check, text: string)
    requires P.Sound(c.lib) && Reachable(c, s)
    requires D.GetSigned(s.kv, t, s.now).data != "" && check.Checked?
    ensures V.Validate(c.lib, backend, D.GetSigned(s.kv, t, s.now).data, check, text)
         == V.ValidateReply(backend, "", check.intact, check.valid, t)
    ensures t in s.requests && S.IsLabelledCopy(c.lib, SealRequest(t, s.requests[t]), D.GetSigned(s.kv, t, s.now).data)
  {
    hide V.Validate, Shape, Kept, Store, Replies;
    ReachableInv(c, s);
    var n := StoredIsReply(c, s, t);
    var reply := s.cache.log[n].payload.value;
    V.SealThenValidate(c.lib, reply.sealerBackend, Job(s.requests, t), reply, backend, check, text);
    K.UuidHasNoColon(t);
  }
}
