/** What clients get: while no PKCS#11 signer or signature metadata fails, whether an upload comes back
    sealed is decided by the upload alone. */
module Results {
  import opened Common
  import opened Drain
  import opened Pipeline
  import opened Safety
  import opened Theorems
  import D = DocStore
  import K = Keywords
  import P = Pdf
  import S = Sealer

  /** A healthy sealer can have given this reply to the PDF accepted under `id`. */
  ghost predicate AnswerTo(c: Config, requests: map<string, string>, id: string, reply: SealReply) {
    id in requests && S.Answers(c.lib, reply.sealerBackend, Job(requests, id), reply)
  }

  ghost predicate AnswersOnly(c: Config, s: State) {
    && (forall n :: 0 <= n < |s.cache.log| ==>
          s.cache.log[n].payload.Json? && AnswerTo(c, s.requests, s.cache.log[n].id, s.cache.log[n].payload.value))
    && (forall i :: 0 <= i < |s.sealers| && s.sealers[i].SSealed? ==>
          s.sealers[i].n < |s.seal.log| && AnswerTo(c, s.requests, s.seal.log[s.sealers[i].n].id, s.sealers[i].reply))
  }

  lemma GatewayAnswers(c: Config, s: State, e: Event)
    requires AnswersOnly(c, s) && GatewayEnabled(s, e)
    ensures AnswersOnly(c, GatewayStep(c, s, e))
  {
    hide K.IsUuid, S.Answers;
    var s' := GatewayStep(c, s, e);
    assert forall id, reply :: AnswerTo(c, s.requests, id, reply) ==> AnswerTo(c, s'.requests, id, reply);
    hide AnswerTo;
  }

  lemma SealerAnswers(c: Config, s: State, e: Event)
    requires Jobs(s) && AnswersOnly(c, s) && SealerEnabled(c, s, e) && HealthyReply(c, s, e)
    ensures AnswersOnly(c, SealerStep(c, s, e))
  {
    hide K.IsUuid, S.Replies;
    if e.Reply? {
      var m := s.seal.log[s.sealers[e.i].n];
      assert JobOk(s.requests, m);
      assert AnswerTo(c, s.requests, m.id, e.reply);
    }
    hide AnswerTo, HealthyReply, Jobs;
  }

  lemma SameAnswers(c: Config, s: State, s': State)
    requires AnswersOnly(c, s) && s'.seal == s.seal && s'.sealers == s.sealers && s'.requests == s.requests
    requires s'.cache.log == s.cache.log
    ensures AnswersOnly(c, s')
  {
    hide AnswerTo;
  }

  lemma AnswersStep(c: Config, s: State, e: Event)
    requires Inv(c, s) && AnswersOnly(c, s) && Enabled(c, s, e) && HealthyReply(c, s, e)
    ensures AnswersOnly(c, Step(c, s, e))
  {
    hide AnswersOnly, HealthyReply, Shape, Jobs, Replies, Kept, Store;
    hide GatewayEnabled, SealerEnabled, CacherEnabled, GatewayStep, SealerStep, CacherStep;
    if GatewayEnabled(s, e) {
      GatewayStepIsStep(c, s, e);
      GatewayAnswers(c, s, e);
    } else if SealerEnabled(c, s, e) {
      SealerStepIsStep(c, s, e);
      SealerAnswers(c, s, e);
    } else if CacherEnabled(s, e) {
      CacherStepIsStep(c, s, e);
      CacherFrame(s, e);
      SameAnswers(c, s, CacherStep(s, e));
    } else {
      SameAnswers(c, s, s.(now := s.now + e.millis));
    }
  }

  lemma {:induction false} AnswersRun(c: Config, s: State, events: seq<Event>)
    requires Inv(c, s) && AnswersOnly(c, s) && Possible(c, s, events) && HealthyRun(c, s, events)
    ensures Inv(c, Run(c, s, events)) && AnswersOnly(c, Run(c, s, events))
    decreases |events|
  {
    hide Inv, AnswersOnly, HealthyReply, Enabled, Step;
    if events != [] {
      StepInv(c, s, events[0]);
      AnswersStep(c, s, events[0]);
      AnswersRun(c, Step(c, s, events[0]), events[1..]);
    }
  }

  /** The upload decodes and opens, and can be signed once `id` has become its only keyword. */
  predicate Sealable(lib: P.Library, id: string, pdf: string) {
    var upload := S.Uploaded(lib, pdf);
    && upload.Some?
    && lib.signing(P.Document(upload.value.content, ["transaction_id:" + id], upload.value.signatures)).CanSign?
  }

  /** In such a run every entry answers for its upload: an upload that can be sealed has been, and the
      entry holds the seal; for any other the entry holds no data. */
  lemma EntryIsSealedIff(c: Config, events: seq<Event>, t: string)
    requires P.Sound(c.lib) && Possible(c, Init(c), events) && HealthyRun(c, Init(c), events)
    requires D.SignedKey(t) in Run(c, Init(c), events).kv
    ensures var s := Run(c, Init(c), events);
            && t in s.requests
            && var (data, req) := (s.kv[D.SignedKey(t)].doc.data, SealRequest(t, s.requests[t]));
               if Sealable(c.lib, t, req.data) then S.IsSealText(c.lib, req, data) && S.IsLabelledCopy(c.lib, req, data)
               else data == ""
  {
    hide Enabled, Step, HealthyRun, Inv, S.IsSealText, P.Sound, S.IsLabelledCopy;
    var s := Run(c, Init(c), events);
    InitInv(c);
    AnswersRun(c, Init(c), events);
    var n := StoredIsReply(c, s, t);
    var reply := s.cache.log[n].payload.value;
    AnswerIsSealIff(c.lib, reply.sealerBackend, SealRequest(t, s.requests[t]), reply);
  }

  lemma AnswerIsSealIff(lib: P.Library, backend: string, req: SealRequest, reply: SealReply)
    requires P.Sound(lib) && S.Answers(lib, backend, req, reply)
    ensures if Sealable(lib, req.transactionId, req.data)
            then reply.error == "" && S.IsSealText(lib, req, reply.data) && S.IsLabelledCopy(lib, req, reply.data)
            else reply.error != "" && reply.data == ""
  {
    assert K.Print(req.transactionId) == "transaction_id:" + req.transactionId;
    assert S.NOT_VALID != "" && S.ENCRYPTED != "";
    if Sealable(lib, req.transactionId, req.data) {
      assert S.Replies(lib, backend, req, reply);
      S.SealIsLabelledCopy(lib, backend, req, reply);
    }
  }
}
