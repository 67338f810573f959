/** The sealer (src/eduseal/sealer/run.py): sealing one request, and the queue loop around it. */
module Sealer {
  import opened Common
  import Base64
  import Keywords
  import P = Pdf
  import W = WorkQueue

  // ---------- sealing ----------

  /** What the libraries answer during one call of `Seal`: the text of a PdfReadError, if there is one;
      the text of an exception caught around the PKCS#11 signer or the signature metadata, if any;
      and what becomes of the signing. */
  datatype SignOutcome = Signed(bytes: seq<Byte>) | KeyNotAvailable(text: string) | SignRaised

  datatype SealIo = SealIo(readText: string, signer: Option<string>, meta: Option<string>, sign: SignOutcome)

  const NOT_VALID: string := "input pdf is not valid, err: "
  const NO_SIGNER: string := "pkcs11 signer creation failed, err: "
  const NO_META: string := "signature meta creation failed, err: "
  const ENCRYPTED: string := "input pdf is encrypted, err: "

  /** The document handed to the signer: the uploaded one with its keywords replaced. */
  function ToSign(lib: P.Library, req: SealRequest): Option<P.Document> {
    var bytes := Base64.UrlSafeDecode(req.data);
    if bytes.None? then None else
    match lib.open(bytes.value)
    case Opened(d) => Some(d.(keywords := [Keywords.Print(req.transactionId)]))
    case ReadError => None
    case OpenRaises => None
  }

  /** `signed` is a signature of the very PDF in the request, labelled with its transaction id. */
  ghost predicate IsSealOf(lib: P.Library, req: SealRequest, signed: seq<Byte>) {
    var d := ToSign(lib, req);
    d.Some? && lib.signing(d.value).CanSign? && lib.signs(d.value, signed)
  }

  ghost predicate IsSealText(lib: P.Library, req: SealRequest, data: string) {
    exists signed :: IsSealOf(lib, req, signed) && data == Base64.Encode(signed, Base64.Standard)
  }

  /** The answers are possible for this request.  An exception during signing always is: the signing
      hardware can fail. */
  ghost predicate Consistent(lib: P.Library, req: SealRequest, io: SealIo) {
    var d := ToSign(lib, req);
    d.Some? ==>
      && (io.sign.Signed? ==> IsSealOf(lib, req, io.sign.bytes))
      && (io.sign.KeyNotAvailable? ==> lib.signing(d.value).Encrypted?)
  }

  /** Nothing fails on the sealer's side: whatever goes wrong is due to the document. */
  predicate Healthy(lib: P.Library, req: SealRequest, io: SealIo) {
    var d := ToSign(lib, req);
    io.signer.None? && io.meta.None? && (d.Some? && io.sign.SignRaised? ==> lib.signing(d.value).SignRaises?)
  }

  function Failure(backend: string, req: SealRequest, error: string): SealReply {
    SealReply(req.transactionId, "", error, backend)
  }

  /** One call of `Seal`; None is an exception that leaves it.  Only PdfReadError is caught around
      decoding and opening, and only PdfKeyNotAvailableError around signing. */
  function Outcome(lib: P.Library, backend: string, req: SealRequest, io: SealIo): Option<SealReply> {
    var bytes := Base64.UrlSafeDecode(req.data);
    if bytes.None? then None else
    match lib.open(bytes.value)
    case OpenRaises => None
    case ReadError => Some(Failure(backend, req, NOT_VALID + io.readText))
    case Opened(_) =>
      if io.signer.Some? then Some(Failure(backend, req, NO_SIGNER + io.signer.value))
      else if io.meta.Some? then Some(Failure(backend, req, NO_META + io.meta.value))
      else match io.sign
        case SignRaised => None
        case KeyNotAvailable(text) => Some(Failure(backend, req, ENCRYPTED + text))
        case Signed(signed) =>
          Some(SealReply(req.transactionId, Base64.Encode(signed, Base64.Standard), "", backend))
  }

  ghost predicate Fails(reply: SealReply, cause: string) { reply.data == "" && cause <= reply.error }

  /** The replies that a request can get from a healthy sealer. */
  ghost predicate Answers(lib: P.Library, backend: string, req: SealRequest, reply: SealReply) {
    var bytes := Base64.UrlSafeDecode(req.data);
    && reply.transactionId == req.transactionId && reply.sealerBackend == backend
    && bytes.Some?
    && match lib.open(bytes.value)
       case OpenRaises => false
       case ReadError => Fails(reply, NOT_VALID)
       case Opened(_) =>
         match lib.signing(ToSign(lib, req).value)
         case SignRaises => false
         case Encrypted => Fails(reply, ENCRYPTED)
         case CanSign => reply.error == "" && IsSealText(lib, req, reply.data)
  }

  /** The replies that it can get at all. */
  ghost predicate Replies(lib: P.Library, backend: string, req: SealRequest, reply: SealReply) {
    || Answers(lib, backend, req, reply)
    || (&& reply.transactionId == req.transactionId && reply.sealerBackend == backend
        && ToSign(lib, req).Some? && (Fails(reply, NO_SIGNER) || Fails(reply, NO_META)))
  }

  /** A healthy sealer answers at all: decoding, opening and signing raise nothing uncaught. */
  predicate Answerable(lib: P.Library, req: SealRequest) {
    var bytes := Base64.UrlSafeDecode(req.data);
    && bytes.Some?
    && match lib.open(bytes.value)
       case OpenRaises => false
       case ReadError => true
       case Opened(_) => !lib.signing(ToSign(lib, req).value).SignRaises?
  }

  /** Some sealer can answer, if only because its PKCS#11 signer or metadata fails first. */
  predicate Replyable(lib: P.Library, req: SealRequest) {
    var bytes := Base64.UrlSafeDecode(req.data);
    bytes.Some? && !lib.open(bytes.value).OpenRaises?
  }

  /** Both sets of replies are exact: a reply is in them if and only if some course of the libraries
      makes `Seal` return it, and makes a healthy one return it. */
  lemma RepliesExact(lib: P.Library, backend: string, req: SealRequest, reply: SealReply)
    ensures Replies(lib, backend, req, reply)
            <==> exists io :: Consistent(lib, req, io) && Outcome(lib, backend, req, io) == Some(reply)
    ensures Answers(lib, backend, req, reply)
            <==> exists io :: Consistent(lib, req, io) && Healthy(lib, req, io)
                              && Outcome(lib, backend, req, io) == Some(reply)
  {
    if Answers(lib, backend, req, reply) {
      var io := HealthyCourse(lib, backend, req, reply);
    } else if Replies(lib, backend, req, reply) {
      var io := if Fails(reply, NO_SIGNER) then SealIo("", Some(reply.error[|NO_SIGNER|..]), None, SignRaised)
                else SealIo("", None, Some(reply.error[|NO_META|..]), SignRaised);
      assert reply.error == if Fails(reply, NO_SIGNER) then NO_SIGNER + io.signer.value else NO_META + io.meta.value;
      assert Consistent(lib, req, io) && Outcome(lib, backend, req, io) == Some(reply);
    }
  }

  lemma HealthyCourse(lib: P.Library, backend: string, req: SealRequest, reply: SealReply) returns (io: SealIo)
    requires Answers(lib, backend, req, reply)
    ensures Consistent(lib, req, io) && Healthy(lib, req, io) && Outcome(lib, backend, req, io) == Some(reply)
  {
    if reply.error == "" {
      var signed :| IsSealOf(lib, req, signed) && reply.data == Base64.Encode(signed, Base64.Standard);
      io := SealIo("", None, None, Signed(signed));
    } else if NOT_VALID <= reply.error && ToSign(lib, req).None? {
      io := SealIo(reply.error[|NOT_VALID|..], None, None, SignRaised);
      assert NOT_VALID + reply.error[|NOT_VALID|..] == reply.error;
    } else {
      io := SealIo("", None, None, KeyNotAvailable(reply.error[|ENCRYPTED|..]));
      assert ENCRYPTED + reply.error[|ENCRYPTED|..] == reply.error;
    }
  }

  /** A healthy sealer returns from `Seal` exactly on the answerable requests, and every answerable
      request has an answer. */
  lemma HealthySealReturnsIff(lib: P.Library, backend: string, req: SealRequest, io: SealIo)
    requires P.Sound(lib) && Consistent(lib, req, io) && Healthy(lib, req, io)
    ensures Outcome(lib, backend, req, io).Some? <==> Answerable(lib, req)
    ensures Outcome(lib, backend, req, io).Some? ==> Answers(lib, backend, req, Outcome(lib, backend, req, io).value)
  {
  }

  lemma AnswerableHasAnswer(lib: P.Library, backend: string, req: SealRequest) returns (reply: SealReply)
    requires P.Sound(lib) && Answerable(lib, req)
    ensures Answers(lib, backend, req, reply)
  {
    var d := ToSign(lib, req);
    if d.None? {
      reply := Failure(backend, req, NOT_VALID);
    } else if lib.signing(d.value).Encrypted? {
      reply := Failure(backend, req, ENCRYPTED);
    } else {
      var signed :| lib.signs(d.value, signed);
      assert IsSealOf(lib, req, signed);
      reply := SealReply(req.transactionId, Base64.Encode(signed, Base64.Standard), "", backend);
    }
  }

  /** What every reply has in common. */
  lemma ReplyShape(lib: P.Library, backend: string, req: SealRequest, reply: SealReply)
    requires Replies(lib, backend, req, reply)
    ensures reply.transactionId == req.transactionId && reply.sealerBackend == backend && Replyable(lib, req)
    ensures if reply.error == "" then IsSealText(lib, req, reply.data) else reply.data == ""
  {
  }

  /** A request can be replied to, and a healthy sealer can reply to it, exactly under these conditions. */
  lemma RepliedIff(lib: P.Library, backend: string, req: SealRequest)
    ensures Replyable(lib, req) <==> exists reply :: Replies(lib, backend, req, reply)
    ensures P.Sound(lib) ==> (Answerable(lib, req) <==> exists reply :: Answers(lib, backend, req, reply))
  {
    if Replyable(lib, req) { assert Replies(lib, backend, req, Failure(backend, req, Cause(lib, req))); }
    if P.Sound(lib) && Answerable(lib, req) { var _ := AnswerableHasAnswer(lib, backend, req); }
  }

  function Cause(lib: P.Library, req: SealRequest): string { if ToSign(lib, req).Some? then NO_SIGNER else NOT_VALID }

  // ---------- what comes out of a seal ----------

  /** The PDF in the request, if its data decodes and opens. */
  function Uploaded(lib: P.Library, data: string): Option<P.Document> {
    var bytes := Base64.UrlSafeDecode(data);
    if bytes.None? then None else P.Read(lib, bytes.value)
  }

  /** `data` decodes to a PDF with the content of the one in the request, at least one signature, and the
      transaction id as its only keyword, whatever keywords the upload had. */
  predicate IsLabelledCopy(lib: P.Library, req: SealRequest, data: string) {
    var (upload, bytes) := (Uploaded(lib, req.data), Base64.Decode(data));
    && upload.Some? && bytes.Some? && P.Read(lib, bytes.value).Some?
    && var sealed := P.Read(lib, bytes.value).value;
       && sealed.content == upload.value.content
       && sealed.keywords == ["transaction_id:" + req.transactionId]
       && sealed.signatures >= 1
  }

  /** Every reply without an error carries such a PDF. */
  lemma SealIsLabelledCopy(lib: P.Library, backend: string, req: SealRequest, reply: SealReply)
    requires P.Sound(lib) && Replies(lib, backend, req, reply) && (reply.error == "" || reply.data != "")
    ensures IsLabelledCopy(lib, req, reply.data)
  {
    ReplyShape(lib, backend, req, reply);
    var signed :| IsSealOf(lib, req, signed) && reply.data == Base64.Encode(signed, Base64.Standard);
    Base64.RoundTrip(signed, Base64.Standard);
    assert Keywords.Print(req.transactionId) == "transaction_id:" + req.transactionId;
  }

  /** The texts that count as a seal of the request are the printed signatures of one document: the
      upload as it was, but for its keywords. */
  lemma SealTextIff(lib: P.Library, req: SealRequest, data: string)
    ensures var upload := Uploaded(lib, req.data);
            IsSealText(lib, req, data) <==>
              && upload.Some?
              && var doc := P.Document(upload.value.content, ["transaction_id:" + req.transactionId],
                                       upload.value.signatures);
                 lib.signing(doc).CanSign?
                 && exists signed :: lib.signs(doc, signed) && data == Base64.Encode(signed, Base64.Standard)
  {
    assert Keywords.Print(req.transactionId) == "transaction_id:" + req.transactionId;
    var upload := Uploaded(lib, req.data);
    if upload.Some? {
      var doc := P.Document(upload.value.content, ["transaction_id:" + req.transactionId], upload.value.signatures);
      assert ToSign(lib, req) == Some(doc);
      if signed :| lib.signs(doc, signed) && data == Base64.Encode(signed, Base64.Standard) {
        assert lib.signing(doc).CanSign? ==> IsSealOf(lib, req, signed);
      }
    }
  }

  /** What one call of `Seal` comes to, by the first thing that goes wrong in it. */
  lemma OutcomeIs(lib: P.Library, backend: string, req: SealRequest, io: SealIo)
    ensures var r := Outcome(lib, backend, req, io);
            var bytes := Base64.UrlSafeDecode(req.data);
            var readable := Uploaded(lib, req.data).Some?;
            && (r.None? <==> bytes.None? || lib.open(bytes.value).OpenRaises?
                             || (readable && io.signer.None? && io.meta.None? && io.sign.SignRaised?))
            && (r.Some? ==> r.value.transactionId == req.transactionId && r.value.sealerBackend == backend)
            && (bytes.Some? && lib.open(bytes.value).ReadError? ==>
                  r.value.error == "input pdf is not valid, err: " + io.readText && r.value.data == "")
            && (readable && io.signer.Some? ==>
                  r.value.error == "pkcs11 signer creation failed, err: " + io.signer.value && r.value.data == "")
            && (readable && io.signer.None? && io.meta.Some? ==>
                  r.value.error == "signature meta creation failed, err: " + io.meta.value && r.value.data == "")
            && (readable && io.signer.None? && io.meta.None? && io.sign.KeyNotAvailable? ==>
                  r.value.error == "input pdf is encrypted, err: " + io.sign.text && r.value.data == "")
            && (readable && io.signer.None? && io.meta.None? && io.sign.Signed? ==>
                  r.value.error == "" && Base64.Decode(r.value.data) == Some(io.sign.bytes))
  {
    if io.sign.Signed? { Base64.RoundTrip(io.sign.bytes, Base64.Standard); }
  }

  class IncrementalPdfFileWriter {
    const source: P.Document
    var keywords: seq<string>

    constructor (source: P.Document)
      ensures this.source == source && keywords == source.keywords
    {
      this.source, keywords := source, source.keywords;
    }

    function Current(): P.Document
      reads this
    {
      source.(keywords := keywords)
    }
  }

  class Sealer {
    const lib: P.Library
    const serviceName: string

    constructor (lib: P.Library, serviceName: string)
      ensures this.lib == lib && this.serviceName == serviceName
    {
      this.lib, this.serviceName := lib, serviceName;
    }

    method Seal(req: SealRequest, io: SealIo) returns (r: Option<SealReply>)
      requires Consistent(lib, req, io)
      ensures r == Outcome(lib, serviceName, req, io)
      ensures r.Some? ==> Replies(lib, serviceName, req, r.value)
      ensures r.Some? && r.value.error == "" <==>
              ToSign(lib, req).Some? && io.signer.None? && io.meta.None? && io.sign.Signed?
      ensures P.Sound(lib) && r.Some? && r.value.error == "" ==> IsLabelledCopy(lib, req, r.value.data)
    {
      var bytes := Base64.UrlSafeDecode(req.data);
      if bytes.None? { return None; }
      var opening := lib.open(bytes.value);
      if opening.OpenRaises? { return None; }
      if opening.ReadError? { return Some(Failure(serviceName, req, NOT_VALID + io.readText)); }
      var writer := new IncrementalPdfFileWriter(opening.document);
      writer.keywords := [Keywords.Print(req.transactionId)];
      if io.signer.Some? { return Some(Failure(serviceName, req, NO_SIGNER + io.signer.value)); }
      if io.meta.Some? { return Some(Failure(serviceName, req, NO_META + io.meta.value)); }
      assert writer.Current() == ToSign(lib, req).value;
      match io.sign {
        case SignRaised => return None;
        case KeyNotAvailable(text) => return Some(Failure(serviceName, req, ENCRYPTED + text));
        case Signed(signed) =>
          r := Some(SealReply(req.transactionId, Base64.Encode(signed, Base64.Standard), "", serviceName));
          if P.Sound(lib) { SealIsLabelledCopy(lib, serviceName, req, r.value); }
      }
    }
  }

  // ---------- the queue loop ----------

  /** One `help_request` on values: publish the reply under the header of the job, then ack the
      job.  An exception at any point (no reply, or a publish that is not confirmed) ends it early
      and takes the sealer down. */
  function HelpEffect(jobs: W.Queue<SealRequest>, cache: W.Queue<SealReply>, n: nat, reply: Option<SealReply>,
                      publish: Call, ackArrives: bool, now: nat, window: nat)
    : (W.Queue<SealRequest>, W.Queue<SealReply>, bool)
    requires n < |jobs.log|
  {
    if reply.None? then (jobs, cache, false) else
    var cache' := if publish.reached then W.Publish(cache, jobs.log[n].id, Json(reply.value), now, window) else cache;
    if !publish.response.Acked? then (jobs, cache', false) else
    (if ackArrives then W.Remove(jobs, n) else jobs, cache', true)
  }

  datatype HelpIo = HelpIo(seal: SealIo, publish: Call, ack: W.Sending)

  /** A series of deliveries of messages on SEAL, each with what its environment does. */
  datatype Series = Series(lib: P.Library, backend: string, jobs: seq<W.Msg<SealRequest>>,
                           fetched: seq<nat>, ios: seq<HelpIo>)
  {
    predicate Valid() { |fetched| == |ios| && forall k :: 0 <= k < |fetched| ==> fetched[k] < |jobs| }

    function Id(k: nat): string
      requires Valid() && k < |fetched|
    {
      jobs[fetched[k]].id
    }

    /** What `Seal` makes of delivery `k`; a body that is not JSON raises before that. */
    function Reply(k: nat): Option<SealReply>
      requires Valid() && k < |fetched|
    {
      var payload := jobs[fetched[k]].payload;
      if payload.Malformed? then None else Outcome(lib, backend, payload.value, ios[k].seal)
    }

    /** Delivery `k` raises nothing: there is a reply, and its publish is confirmed. */
    predicate Passes(k: nat)
      requires Valid() && k < |fetched|
    {
      Reply(k).Some? && ios[k].publish.response.Acked?
    }

    /** The jobs whose acks arrive among the first `k` deliveries. */
    function Acked(k: nat): set<nat>
      requires Valid() && k <= |fetched|
    {
      set i | 0 <= i < k && ios[i].ack.Arrived? :: fetched[i]
    }

    /** CACHE after the publishes of the first `k` deliveries. */
    function CacheAfter(k: nat, q: W.Queue<SealReply>, now: nat, window: nat): W.Queue<SealReply>
      requires Valid() && k <= |fetched|
    {
      if k == 0 then q else
      var before := CacheAfter(k - 1, q, now, window);
      if Reply(k - 1).Some? && ios[k - 1].publish.reached
      then W.Publish(before, Id(k - 1), Json(Reply(k - 1).value), now, window) else before
    }

    lemma AckedNone()
      requires Valid()
      ensures Acked(0) == {}
    {
    }

    lemma AckedNext(k: nat)
      requires Valid() && k < |fetched|
      ensures Acked(k + 1) == Acked(k) + if ios[k].ack.Arrived? then {fetched[k]} else {}
    {
    }

    /** A delivery that passed has its id stored on CACHE. */
    lemma {:induction false} PassedIsStored(k: nat, q: W.Queue<SealReply>, now: nat, window: nat)
      requires Valid() && k <= |fetched| && W.DedupStored(q) && forall i :: 0 <= i < k ==> ios[i].publish.Possible()
      ensures W.DedupStored(CacheAfter(k, q, now, window))
      ensures forall i :: 0 <= i < k && Passes(i) ==> W.Stored(CacheAfter(k, q, now, window), Id(i))
    {
      hide Outcome, W.Publish, W.Stored, W.DedupStored;
      if k > 0 {
        PassedIsStored(k - 1, q, now, window);
        if Reply(k - 1).Some? {
          W.PublishStores(CacheAfter(k - 1, q, now, window), Id(k - 1), Json(Reply(k - 1).value), now, window);
        }
      }
    }

    /** So has every job that was acked, if all deliveries up to `k` passed. */
    lemma AckedIsStored(k: nat, done: nat, q: W.Queue<SealReply>, now: nat, window: nat)
      requires Valid() && k <= done <= |fetched| && W.DedupStored(q)
      requires forall i :: 0 <= i < |fetched| ==> ios[i].publish.Possible()
      requires forall i :: 0 <= i < k ==> Passes(i)
      ensures forall n :: n in Acked(k) ==> n < |jobs| && W.Stored(CacheAfter(done, q, now, window), jobs[n].id)
    {
      hide Outcome, CacheAfter, W.Stored, W.DedupStored;
      PassedIsStored(done, q, now, window);
      forall n | n in Acked(k) ensures n < |jobs| && W.Stored(CacheAfter(done, q, now, window), jobs[n].id) {
        var i :| 0 <= i < k && ios[i].ack.Arrived? && fetched[i] == n;
        assert Passes(i) && Id(i) == jobs[n].id;
      }
    }
  }

  class QueueServer {
    const sealer: Sealer
    const jobs: W.Stream<SealRequest>
    const cache: W.Stream<SealReply>

    constructor (sealer: Sealer, jobs: W.Stream<SealRequest>, cache: W.Stream<SealReply>)
      ensures this.sealer == sealer && this.jobs == jobs && this.cache == cache
    {
      this.sealer, this.jobs, this.cache := sealer, jobs, cache;
    }

    ghost predicate Possible(n: nat, io: HelpIo)
      reads jobs
    {
      && io.publish.Possible()
      && n < |jobs.q.log|
      && (jobs.q.log[n].payload.Json? ==> Consistent(sealer.lib, jobs.q.log[n].payload.value, io.seal))
    }

    method HelpRequest(msg: W.Delivery<SealRequest>, io: HelpIo) returns (alive: bool, reply: Option<SealReply>)
      requires msg.stream == jobs && !msg.ackd && Possible(msg.seqno, io)
      modifies msg, jobs`q, cache`q
      ensures (jobs.q, cache.q, alive) == HelpEffect(old(jobs.q), old(cache.q), msg.seqno, reply,
                                                     io.publish, io.ack.Arrived?, cache.now, cache.window)
      ensures var payload := old(jobs.q).log[msg.seqno].payload;
              reply == if payload.Malformed? then None
                       else Outcome(sealer.lib, sealer.serviceName, payload.value, io.seal)
      ensures alive <==> reply.Some? && io.publish.response.Acked?
      ensures cache.q == if reply.Some? && io.publish.reached
                         then W.Publish(old(cache.q), old(jobs.q).log[msg.seqno].id, Json(reply.value),
                                        cache.now, cache.window)
                         else old(cache.q)
      ensures jobs.q.log == old(jobs.q).log && jobs.q.dedup == old(jobs.q).dedup
      ensures jobs.q.live == old(jobs.q).live - (if alive && io.ack.Arrived? then {msg.seqno} else {})
    {
      var m := jobs.q.log[msg.seqno];
      if m.payload.Malformed? { return false, None; }
      reply := sealer.Seal(m.payload.value, io.seal);
      if reply.None? { return false, None; }
      var ok := cache.Send(m.id, Json(reply.value), io.publish);
      if !ok { return false, reply; }
      msg.Ack(io.ack);
      return true, reply;
    }

    /** The fetch loop on a given sequence of deliveries, alone on the queues.  It goes through the
        deliveries up to the first one that raises: a body that does not decode, an exception in
        `Seal`, or a publish that is not confirmed.  What it leaves is what the deliveries up to and
        including that one left, and the later ones are not touched.  Hence a job leaves the queue
        only when a reply under its id has been stored on CACHE. */
    method Start(fetched: seq<nat>, ios: seq<HelpIo>) returns (handled: nat)
      requires |fetched| == |ios| && W.DedupStored(cache.q)
      requires forall k :: 0 <= k < |fetched| ==> fetched[k] < |jobs.q.log| && Possible(fetched[k], ios[k])
      modifies jobs`q, cache`q
      ensures handled <= |fetched|
      ensures var series := Series(sealer.lib, sealer.serviceName, old(jobs.q).log, fetched, ios);
              && (forall k :: 0 <= k < handled ==> series.Passes(k))
              && (handled < |fetched| ==> !series.Passes(handled))
              && jobs.q == old(jobs.q).(live := old(jobs.q).live - series.Acked(handled))
              && var done := if handled < |fetched| then handled + 1 else handled;
                 cache.q == series.CacheAfter(done, old(cache.q), cache.now, cache.window)
      ensures forall n :: n in old(jobs.q).live - jobs.q.live ==> W.Stored(cache.q, jobs.q.log[n].id)
    {
      hide Outcome, Consistent, HelpEffect, W.Publish, W.Stored, W.DedupStored, Series.Acked;
      ghost var series := Series(sealer.lib, sealer.serviceName, jobs.q.log, fetched, ios);
      ghost var start, before := jobs.q, cache.q;
      assert series.Acked(0) == {} by { series.AckedNone(); }
      handled := 0;
      while handled < |fetched|
        invariant handled <= |fetched|
        invariant forall k :: 0 <= k < handled ==> series.Passes(k)
        invariant jobs.q == start.(live := start.live - series.Acked(handled))
        invariant cache.q == series.CacheAfter(handled, before, cache.now, cache.window)
      {
        series.AckedNext(handled);
        var msg := new W.Delivery(jobs, fetched[handled]);
        var alive, reply := HelpRequest(msg, ios[handled]);
        assert reply == series.Reply(handled);
        if !alive { break; }
        handled := handled + 1;
      }
      ghost var done := if handled < |fetched| then handled + 1 else handled;
      series.AckedIsStored(handled, done, before, cache.now, cache.window);
    }
  }
}
