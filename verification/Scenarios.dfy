/** Runs that show the conditions of the theorems are needed. */
module Scenarios {
  import opened Common
  import opened Pipeline
  import Base64
  import C = Cacher
  import D = DocStore
  import Drain
  import O = Orphans
  import P = Pdf
  import H = Handlers
  import G = Gateway
  import K = Keywords
  import R = Redict
  import S = Sealer
  import W = WorkQueue

  /** One request, sealed and acked: its reply is on CACHE and nowhere else. */
  function SealedEvents(pdf: string, id: string, reply: SealReply): seq<Event> {
    H.SignEvents(0, pdf, id, OK, OK) + H.HelpEvents(0, 0, Some(reply), OK, true)
  }

  ghost predicate OneRequest(c: Config, pdf: string, id: string, reply: SealReply) {
    && c.gateways >= 1 && |c.backends| >= 1 && pdf != "" && K.IsUuid(id) && id != ""
    && S.Replies(c.lib, c.backends[0], SealRequest(id, pdf), reply)
  }

  lemma SealedOnce(c: Config, pdf: string, id: string, reply: SealReply)
    requires OneRequest(c, pdf, id, reply)
    ensures Possible(c, Init(c), SealedEvents(pdf, id, reply))
    ensures var s := Run(c, Init(c), SealedEvents(pdf, id, reply));
            && W.Stored(s.seal, id) && s.seal == W.Queue([W.Msg(id, Json(SealRequest(id, pdf)), 0)], {}, map[id := 0])
            && s.cache == W.Queue([W.Msg(id, Json(reply), 0)], {0}, map[id := 0])
            && s.kv == map[] && s.saved == {} && s.now == 0 && s.cachers == Init(c).cachers
            && s.gateways == Init(c).gateways && s.sealers == Init(c).sealers
            && s.requests == map[id := pdf] && s.returned == [id]
  {
    hide Enabled, Step, K.IsUuid, S.Replies;
    var s0 := Init(c);
    H.SignIsRun(c, s0, 0, pdf, id, OK, OK);
    var es := H.SignEvents(0, pdf, id, OK, OK);
    var s1 := Run(c, s0, es);
    assert s1.seal.log == [W.Msg(id, Json(SealRequest(id, pdf)), 0)] && s1.seal.live == {0};
    H.HelpIsRun(c, s1, 0, 0, Some(reply), OK, true);
    RunConcat(c, s0, es, H.HelpEvents(0, 0, Some(reply), OK, true));
    var s2 := Run(c, s1, H.HelpEvents(0, 0, Some(reply), OK, true));
    assert s2.seal.log[0].id == id && s2.gateways == s0.gateways && s2.sealers == s0.sealers;
    assert s2.cache.log == [W.Msg(id, Json(reply), 0)] && s2.cache.live == {0};
  }

  /** A lost nak loses a job: Redict refuses the save, the nak cannot be sent, the ack can.  The id is
      then in neither queue, was never saved, and nothing is stored for it. */
  lemma LostNakLosesJob(c: Config, pdf: string, id: string, reply: SealReply)
    requires OneRequest(c, pdf, id, reply) && c.cachers >= 1
    ensures var io := C.Io(true, Call(false, Errored), 0, Call(false, Errored), false, W.Arrived);
            var es := SealedEvents(pdf, id, reply) + H.ConsumeEvents(0, 0, C.DocOf(reply), io);
            Possible(c, Init(c), es)
            && var s := Run(c, Init(c), es);
               W.Stored(s.seal, id) && !W.Retained(s.seal, id) && !W.Retained(s.cache, id)
               && id !in s.saved && s.kv == map[]
  {
    hide Enabled, Step, K.IsUuid, S.Replies;
    var io := C.Io(true, Call(false, Errored), 0, Call(false, Errored), false, W.Arrived);
    SealedOnce(c, pdf, id, reply);
    var s := Run(c, Init(c), SealedEvents(pdf, id, reply));
    H.ConsumeIsRun(c, s, 0, 0, io);
    RunConcat(c, Init(c), SealedEvents(pdf, id, reply), H.ConsumeEvents(0, 0, C.DocOf(reply), io));
  }

  /** The overlap of two cachers on one message: cacher 1 is slow, cacher 0 does everything right and
      acks, the entry expires, and then cacher 1 writes it again and crashes. */
  function OverlapEvents(reply: SealReply): seq<Event> {
    OverlapStart(reply) + [Tick(D.TTL)] + [HSet(1, OK)] + [CacherCrash(1)]
  }

  function OverlapStart(reply: SealReply): seq<Event> {
    [Deliver(1, 0), Decode(1, true)] + H.ConsumeEvents(0, 0, C.DocOf(reply), C.Io(true, OK, 0, OK, true, W.Arrived))
  }

  lemma OverlapSaved(c: Config, s: State, reply: SealReply)
    requires reply.transactionId != "" && |s.cachers| >= 2 && (forall j :: 0 <= j < |s.cachers| ==> s.cachers[j].CIdle?)
    requires s.cache == W.Queue([W.Msg(reply.transactionId, Json(reply), 0)], {0}, map[reply.transactionId := 0])
    requires s.kv == map[] && s.now == 0
    ensures Possible(c, s, OverlapStart(reply))
    ensures var (end, doc) := (Run(c, s, OverlapStart(reply)), C.DocOf(reply));
            && end.kv == map[D.SignedKey(reply.transactionId) := R.Entry(doc, Some(D.TTL))] && end.now == 0
            && end.cache.live == {} && |end.cachers| == |s.cachers|
            && (forall j :: 0 <= j < |s.cachers| ==> end.cachers[j] == if j == 1 then CSaving(0, doc, false) else CIdle)
  {
    hide Enabled, Step, D.SignedKey, GatewayEnabled, SealerEnabled;
    var io := C.Io(true, OK, 0, OK, true, W.Arrived);
    var a, b := [Deliver(1, 0), Decode(1, true)], H.ConsumeEvents(0, 0, C.DocOf(reply), io);
    H.Delivered(c, s, 1, 0, true);
    H.ConsumeIsRun(c, Run(c, s, a), 0, 0, io);
    RunConcat(c, s, a, b);
  }

  /** It leaves an entry that never expires, with no message left whose redelivery could help. */
  lemma OverlapLeavesImmortal(c: Config, pdf: string, id: string, reply: SealReply)
    requires OneRequest(c, pdf, id, reply) && c.cachers >= 2
    ensures var es := SealedEvents(pdf, id, reply) + OverlapEvents(reply);
            Possible(c, Init(c), es)
            && var s := Run(c, Init(c), es);
               && D.SignedKey(id) in s.kv && s.kv[D.SignedKey(id)] == R.Entry(C.DocOf(reply), None)
               && s.cache.live == {} && (forall j :: 0 <= j < |s.cachers| ==> s.cachers[j].CIdle?)
  {
    hide Enabled, Step, K.IsUuid, D.SignedKey, GatewayEnabled, SealerEnabled;
    SealedOnce(c, pdf, id, reply);
    var s1 := Run(c, Init(c), SealedEvents(pdf, id, reply));
    assert reply.transactionId == id;
    hide S.Replies;
    OverlapSaved(c, s1, reply);
    var start := OverlapStart(reply);
    var s3 := Run(c, s1, start);
    var s4 := s3.(now := s3.now + D.TTL);
    TickIsStep(c, s3, Tick(D.TTL));
    RunThen(c, s1, start, Tick(D.TTL));
    H.HSetEffect(s4, 1, OK);
    CacherStepIsStep(c, s4, HSet(1, OK));
    RunThen(c, s1, start + [Tick(D.TTL)], HSet(1, OK));
    hide OverlapStart;
    var s5 := CacherStep(s4, HSet(1, OK));
    CacherStepIsStep(c, s5, CacherCrash(1));
    RunThen(c, s1, start + [Tick(D.TTL)] + [HSet(1, OK)], CacherCrash(1));
    RunConcat(c, Init(c), SealedEvents(pdf, id, reply), OverlapEvents(reply));
  }

  // ---------- an immortal entry without any overlap ----------

  lemma {:induction false} SoloConcat(c: Config, s: State, a: seq<Event>, b: seq<Event>)
    requires Possible(c, s, a) && O.SoloRun(c, s, a) && Possible(c, Run(c, s, a), b) && O.SoloRun(c, Run(c, s, a), b)
    ensures Possible(c, s, a + b) && O.SoloRun(c, s, a + b)
    decreases |a|
  {
    hide Enabled, Step, O.Solo;
    if a == [] {
      assert a + b == b;
    } else {
      assert (a + b)[1..] == a[1..] + b;
      SoloConcat(c, Step(c, s, a[0]), a[1..], b);
    }
  }

  lemma {:induction false} SoloWithoutDeliveries(c: Config, s: State, events: seq<Event>)
    requires Possible(c, s, events) && forall k :: 0 <= k < |events| ==> !events[k].Deliver?
    ensures O.SoloRun(c, s, events)
    decreases |events|
  {
    hide Enabled, Step;
    if events != [] { SoloWithoutDeliveries(c, Step(c, s, events[0]), events[1..]); }
  }

  /** A callback that starts while nobody works on its message. */
  lemma ConsumeIsSolo(c: Config, s: State, n: nat, doc: Document, io: C.Io)
    requires Possible(c, s, H.ConsumeEvents(0, n, doc, io)) && forall j :: 0 <= j < |s.cachers| ==> s.cachers[j].CIdle?
    ensures O.SoloRun(c, s, H.ConsumeEvents(0, n, doc, io))
  {
    hide Enabled, Step;
    var es := H.ConsumeEvents(0, n, doc, io);
    SoloWithoutDeliveries(c, Step(c, s, es[0]), es[1..]);
  }

  /** One cacher suffices: its EXPIRE fails, the nak cannot be sent, the ack can.  No message is ever in
      two hands, and the entry never expires, with no message left whose redelivery could help. */
  lemma LostNakLeavesImmortal(c: Config, pdf: string, id: string, reply: SealReply)
    requires OneRequest(c, pdf, id, reply) && c.cachers >= 1
    ensures var io := C.Io(true, OK, 0, Call(false, Errored), false, W.Arrived);
            var es := SealedEvents(pdf, id, reply) + H.ConsumeEvents(0, 0, C.DocOf(reply), io);
            Possible(c, Init(c), es) && O.SoloRun(c, Init(c), es)
            && var s := Run(c, Init(c), es);
               && D.SignedKey(id) in s.kv && s.kv[D.SignedKey(id)] == R.Entry(C.DocOf(reply), None)
               && s.cache.live == {} && (forall j :: 0 <= j < |s.cachers| ==> s.cachers[j].CIdle?)
  {
    hide Enabled, Step, K.IsUuid, S.Replies, D.SignedKey;
    var io := C.Io(true, OK, 0, Call(false, Errored), false, W.Arrived);
    var a, b := SealedEvents(pdf, id, reply), H.ConsumeEvents(0, 0, C.DocOf(reply), io);
    SealedOnce(c, pdf, id, reply);
    var s := Run(c, Init(c), a);
    S.ReplyShape(c.lib, c.backends[0], SealRequest(id, pdf), reply);
    H.ConsumeIsRun(c, s, 0, 0, io);
    RunConcat(c, Init(c), a, b);
    SoloWithoutDeliveries(c, Init(c), a);
    ConsumeIsSolo(c, s, 0, C.DocOf(reply), io);
    hide O.SoloRun;
    SoloConcat(c, Init(c), a, b);
  }

  // ---------- two readers disagree ----------

  /** Accepted and sealed, but the ack on SEAL is lost; a window later the job comes again and gets a
      second signature. */
  function SealedTwiceEvents(c: Config, pdf: string, id: string, first: SealReply, second: SealReply): seq<Event> {
    SealedLateEvents(c, pdf, id, first) + H.HelpEvents(0, 0, Some(second), OK, true)
  }

  function SealedLateEvents(c: Config, pdf: string, id: string, first: SealReply): seq<Event> {
    H.SignEvents(0, pdf, id, OK, OK) + H.HelpEvents(0, 0, Some(first), OK, false) + [Tick(c.window)]
  }

  lemma SealedLate(c: Config, pdf: string, id: string, first: SealReply)
    requires OneRequest(c, pdf, id, first)
    ensures var es := SealedLateEvents(c, pdf, id, first);
            Possible(c, Init(c), es)
            && var s := Run(c, Init(c), es);
               && s.seal.log == [W.Msg(id, Json(SealRequest(id, pdf)), 0)] && s.seal.live == {0}
               && s.cache == W.Queue([W.Msg(id, Json(first), 0)], {0}, map[id := 0])
               && s.now == c.window && s.kv == map[] && s.sealers == Init(c).sealers && s.cachers == Init(c).cachers
  {
    hide Enabled, Step, K.IsUuid, S.Replies;
    var a, b := H.SignEvents(0, pdf, id, OK, OK), H.HelpEvents(0, 0, Some(first), OK, false);
    H.SignIsRun(c, Init(c), 0, pdf, id, OK, OK);
    var s1 := Run(c, Init(c), a);
    assert s1.seal.log == [W.Msg(id, Json(SealRequest(id, pdf)), 0)] && s1.seal.live == {0};
    H.HelpIsRun(c, s1, 0, 0, Some(first), OK, false);
    RunConcat(c, Init(c), a, b);
    var s2 := Run(c, s1, b);
    assert s2.sealers == Init(c).sealers;
    TickIsStep(c, s2, Tick(c.window));
    RunThen(c, Init(c), a + b, Tick(c.window));
  }

  lemma SealedTwice(c: Config, pdf: string, id: string, first: SealReply, second: SealReply)
    requires OneRequest(c, pdf, id, first) && S.Replies(c.lib, c.backends[0], SealRequest(id, pdf), second)
    ensures var es := SealedTwiceEvents(c, pdf, id, first, second);
            Possible(c, Init(c), es)
            && var s := Run(c, Init(c), es);
               && s.cache.log == [W.Msg(id, Json(first), 0), W.Msg(id, Json(second), c.window)]
               && s.cache.live == {0, 1} && s.kv == map[] && s.cachers == Init(c).cachers
  {
    SealedLate(c, pdf, id, first);
    hide Enabled, Step, K.IsUuid, S.Replies, SealedLateEvents, H.HelpEvents;
    var s := Run(c, Init(c), SealedLateEvents(c, pdf, id, first));
    H.HelpIsRun(c, s, 0, 0, Some(second), OK, true);
    RunConcat(c, Init(c), SealedLateEvents(c, pdf, id, first), H.HelpEvents(0, 0, Some(second), OK, true));
  }

  const SMOOTH: C.Io := C.Io(true, OK, 0, OK, true, W.Arrived)

  /** One callback in which nothing goes wrong. */
  lemma Consumed(c: Config, s: State, n: nat, reply: SealReply)
    requires CacherEnabled(s, Deliver(0, n)) && n < |s.cache.log| && s.cache.log[n].payload == Json(reply)
    requires reply.transactionId != ""
    ensures var es := H.ConsumeEvents(0, n, C.DocOf(reply), SMOOTH);
            Possible(c, s, es)
            && var end := Run(c, s, es);
               && D.GetSigned(end.kv, reply.transactionId, end.now)
                  == Document(reply.transactionId, reply.data, reply.sealerBackend, "", 0, "")
               && end.cache == W.Remove(s.cache, n) && end.cachers == s.cachers[0 := CIdle]
  {
    hide Enabled, Step, CacherEnabled, D.SaveSigned, D.GetSigned;
    H.ConsumeIsRun(c, s, 0, n, SMOOTH);
    D.SavedIsReadable(s.kv, C.DocOf(reply), OK, OK, s.now, s.now, 0);
    D.SaveErrors(s.kv, C.DocOf(reply), OK, OK, s.now, s.now);
  }

  /** The window condition for agreement is needed: without it, two reads of one id return the two
      signatures one after the other. */
  lemma TwoReadersDisagree(c: Config, pdf: string, id: string, first: SealReply, second: SealReply)
    requires OneRequest(c, pdf, id, first) && S.Replies(c.lib, c.backends[0], SealRequest(id, pdf), second)
    requires c.cachers >= 1
    ensures var es := SealedTwiceEvents(c, pdf, id, first, second) + H.ConsumeEvents(0, 0, C.DocOf(first), SMOOTH);
            var more := H.ConsumeEvents(0, 1, C.DocOf(second), SMOOTH);
            Possible(c, Init(c), es) && Possible(c, Run(c, Init(c), es), more)
            && var s1 := Run(c, Init(c), es); var s2 := Run(c, s1, more);
               && D.GetSigned(s1.kv, id, s1.now) == Document(id, first.data, c.backends[0], "", 0, "")
               && D.GetSigned(s2.kv, id, s2.now) == Document(id, second.data, c.backends[0], "", 0, "")
  {
    hide Enabled, Step, K.IsUuid, S.Replies, D.GetSigned, SealedTwiceEvents, H.ConsumeEvents;
    var a, b := SealedTwiceEvents(c, pdf, id, first, second), H.ConsumeEvents(0, 0, C.DocOf(first), SMOOTH);
    S.ReplyShape(c.lib, c.backends[0], SealRequest(id, pdf), first);
    S.ReplyShape(c.lib, c.backends[0], SealRequest(id, pdf), second);
    SealedTwice(c, pdf, id, first, second);
    var s := Run(c, Init(c), a);
    Consumed(c, s, 0, first);
    RunConcat(c, Init(c), a, b);
    Consumed(c, Run(c, s, b), 1, second);
  }

  // ---------- poison ----------

  /** A request whose `pdf` is the one-letter text "A", which fails its declared `base64` tag, is
      accepted all the same and leaves a job to which no sealer can ever reply. */
  lemma PoisonIsAccepted(c: Config, id: string)
    requires c.gateways >= 1 && K.IsUuid(id)
    ensures !Base64.MatchesTag("A")
    ensures var es := H.SignEvents(0, "A", id, OK, OK);
            Possible(c, Init(c), es)
            && var s := Run(c, Init(c), es);
               s.returned == [id] && |s.seal.log| == 1 && s.seal.log[0].payload == Json(SealRequest(id, "A"))
               && !S.Replyable(c.lib, SealRequest(id, "A"))
  {
    hide Enabled, Step, K.IsUuid;
    H.SignIsRun(c, Init(c), 0, "A", id, OK, OK);
    var start := Base64.Scan(0, 0, 0, [], false);
    Base64.ScanChar(start, 'A', "");
    assert Base64.Translate("A") == ['A'] + "";
  }

  /** A library that cannot open empty bytes and does not sign what is already signed: `Seal` always
      fills the same signature field. */
  ghost predicate RefusesSigned(lib: P.Library) {
    lib.open([]).ReadError? && forall d: P.Document :: d.signatures >= 1 ==> lib.signing(d).SignRaises?
  }

  /** With such a library, what the pipeline returned is poison when uploaded again: the request matches
      its tag, is accepted, decodes and opens, and leaves a job that no healthy sealer answers. */
  lemma SealedAgainIsStuck(c: Config, pdf: string, id: string, reply: SealReply, again: string)
    requires OneRequest(c, pdf, id, reply) && reply.error == "" && K.IsUuid(again) && again != id
    requires P.Sound(c.lib) && RefusesSigned(c.lib)
    ensures Base64.MatchesTag(reply.data)
    ensures var es := SealedEvents(pdf, id, reply) + H.SignEvents(0, reply.data, again, OK, OK);
            Possible(c, Init(c), es)
            && var s := Run(c, Init(c), es);
               s.returned == [id, again] && |s.seal.log| == 2 && Drain.Stuck(c, s, 1)
  {
    hide Enabled, Step, K.IsUuid;
    SealedOnce(c, pdf, id, reply);
    SealIsUnanswerable(c.lib, c.backends[0], SealRequest(id, pdf), reply, again);
    hide S.Replies, S.Answerable, Base64.MatchesTag, P.Sound, RefusesSigned;
    var s := Run(c, Init(c), SealedEvents(pdf, id, reply));
    H.SignIsRun(c, s, 0, reply.data, again, OK, OK);
    RunConcat(c, Init(c), SealedEvents(pdf, id, reply), H.SignEvents(0, reply.data, again, OK, OK));
  }

  lemma SealIsUnanswerable(lib: P.Library, backend: string, req: SealRequest, reply: SealReply, again: string)
    requires P.Sound(lib) && RefusesSigned(lib) && S.Replies(lib, backend, req, reply) && reply.error == ""
    ensures reply.data != "" && Base64.MatchesTag(reply.data) && !S.Answerable(lib, SealRequest(again, reply.data))
  {
    hide Base64.MatchesTag, Base64.UrlSafeDecode, Base64.Encode;
    S.ReplyShape(lib, backend, req, reply);
    var signed :| S.IsSealOf(lib, req, signed) && reply.data == Base64.Encode(signed, Base64.Standard);
    Base64.RoundTrip(signed, Base64.Standard);
    Base64.EncodedMatchesTag(signed);
    assert reply.data != "" by { TagNotEmpty(reply.data); }
    assert P.Read(lib, signed).Some? && P.Read(lib, signed).value.signatures >= 1;
  }

  lemma TagNotEmpty(s: string)
    requires Base64.MatchesTag(s)
    ensures s != ""
  {
  }

  // ---------- a library that meets the assumptions ----------

  /** Bytes are a length, so many bytes of keyword, and the content; a length of zero stands for an
      unsigned document without keywords. */
  function ToyOpen(bytes: seq<Byte>): P.Opening {
    if |bytes| == 0 || |bytes| <= bytes[0] then P.ReadError
    else if bytes[0] == 0 then P.Opened(P.Document(bytes[1..], [], 0))
    else P.Opened(P.Document(bytes[1 + bytes[0]..], [Text(bytes[1..1 + bytes[0]])], 1))
  }

  function Text(bytes: seq<Byte>): string { seq(|bytes|, k requires 0 <= k < |bytes| => bytes[k] as char) }

  predicate Printable(s: string) { 1 <= |s| < 256 && forall k :: 0 <= k < |s| ==> s[k] as int < 256 }

  function Octets(s: string): seq<Byte>
    requires Printable(s)
  {
    seq(|s|, k requires 0 <= k < |s| => s[k] as int)
  }

  function ToySigning(d: P.Document): P.Signing {
    if d.signatures >= 1 then P.SignRaises
    else if |d.keywords| == 1 && Printable(d.keywords[0]) then P.CanSign
    else P.Encrypted
  }

  predicate ToySigns(d: P.Document, bytes: seq<Byte>) {
    ToySigning(d).CanSign? && bytes == [|d.keywords[0]|] + Octets(d.keywords[0]) + d.content
  }

  const Toy: P.Library := P.Library(ToyOpen, ToySigning, ToySigns)

  lemma ToyReadsBack(d: P.Document, bytes: seq<Byte>)
    requires ToySigns(d, bytes)
    ensures ToyOpen(bytes) == P.Opened(P.Document(d.content, d.keywords, 1))
  {
    var k := d.keywords[0];
    assert bytes[1..1 + |k|] == Octets(k) && bytes[1 + |k|..] == d.content;
    assert Text(Octets(k)) == k;
  }

  lemma ToyIsSound()
    ensures P.Sound(Toy) && RefusesSigned(Toy)
  {
    forall d, b | Toy.signs(d, b)
      ensures Toy.signing(d).CanSign? && P.Read(Toy, b) == Some(P.Document(d.content, d.keywords, 1))
    {
      ToyReadsBack(d, b);
    }
    forall d | Toy.signing(d).CanSign? ensures exists b :: Toy.signs(d, b) {
      assert Toy.signs(d, [|d.keywords[0]|] + Octets(d.keywords[0]) + d.content);
    }
  }

  lemma ToyOpensUnsigned(content: seq<Byte>)
    ensures ToyOpen([0] + content) == P.Opened(P.Document(content, [], 0))
  {
    assert ([0] + content)[1..] == content;
  }

  lemma ToyCanSign(id: string, content: seq<Byte>)
    requires K.IsUuid(id)
    ensures ToySigning(P.Document(content, [K.Print(id)], 0)).CanSign?
  {
    assert Printable(K.Print(id));
  }

  lemma ToyAnswer(backend: string, id: string, pdf: string, content: seq<Byte>) returns (reply: SealReply)
    requires K.IsUuid(id) && pdf == Base64.Encode([0] + content, Base64.Standard)
    ensures S.Replies(Toy, backend, SealRequest(id, pdf), reply) && reply.error == ""
  {
    Base64.RoundTrip([0] + content, Base64.Standard);
    ToyOpensUnsigned(content);
    ToyCanSign(id, content);
    ToyIsSound();
    var req := SealRequest(id, pdf);
    hide Base64.Encode, Base64.UrlSafeDecode, K.IsUuid, K.Print, ToyOpen, ToySigning;
    hide P.Sound, RefusesSigned, S.IsSealText;
    assert S.ToSign(Toy, req) == Some(P.Document(content, [K.Print(id)], 0));
    reply := S.AnswerableHasAnswer(Toy, backend, req);
  }

  /** What is assumed of the library can be met, together with everything the scenarios require: a PDF
      with any content gets a seal. */
  lemma AssumptionsCanBeMet(c: Config, id: string, content: seq<Byte>) returns (pdf: string, reply: SealReply)
    requires c.lib == Toy && c.gateways >= 1 && |c.backends| >= 1 && K.IsUuid(id)
    ensures P.Sound(c.lib) && RefusesSigned(c.lib) && OneRequest(c, pdf, id, reply) && reply.error == ""
  {
    ToyIsSound();
    pdf := Base64.Encode([0] + content, Base64.Standard);
    assert pdf != "" && id != "" by { K.UuidHasNoColon(id); Base64.EncodedLength([0] + content, Base64.Standard); }
    hide P.Sound, RefusesSigned, K.IsUuid, Base64.Encode, S.Replies;
    reply := ToyAnswer(c.backends[0], id, pdf, content);
  }

  /** A client library that repeats INCR after a lost answer counts one request twice, so the counter
      exceeds the number of ids on record. */
  lemma RetriedIncrOvercounts(c: Config, pdf: string, id: string)
    requires c.gateways >= 1 && K.IsUuid(id) && pdf != ""
    ensures var es := [Request(0, id, pdf)] + [PublishJob(0, OK)] + [Count(0, Call(true, Again))] + [Count(0, OK)];
            Possible(c, Init(c), es)
            && var s := Run(c, Init(c), es);
               R.Count(s.counters, G.SIGNINGS) == 2 && |s.seal.log| == 1 && s.returned == [id]
  {
    hide Enabled, Step, K.IsUuid, SealerEnabled, CacherEnabled;
    var s0 := Init(c);
    var e1, e2, e3, e4 := Request(0, id, pdf), PublishJob(0, OK), Count(0, Call(true, Again)), Count(0, OK);
    var s1 := GatewayStep(c, s0, e1);
    var s2 := GatewayStep(c, s1, e2);
    var s3 := GatewayStep(c, s2, e3);
    GatewayStepIsStep(c, s0, e1);
    GatewayStepIsStep(c, s1, e2);
    GatewayStepIsStep(c, s2, e3);
    GatewayStepIsStep(c, s3, e4);
    assert [] + [e1] == [e1];
    RunThen(c, s0, [], e1);
    RunThen(c, s0, [e1], e2);
    RunThen(c, s0, [e1] + [e2], e3);
    RunThen(c, s0, [e1] + [e2] + [e3], e4);
  }
}
