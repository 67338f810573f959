/** The API gateway's handlers (internal/apigw/apiv1/handlers_eduseal.go) and the metrics they keep
    (pkg/kvclient/metrics.go), with Mongo disabled. */
module Gateway {
  import opened Common
  import D = DocStore
  import R = Redict
  import W = WorkQueue

  const SIGNINGS: string := "metric:signings"
  const FETCHINGS: string := "metric:fetching"
  const VALIDATIONS: string := "metric:validations"

  /** Metrics and documents share one key space without meeting. */
  lemma MetricsAreNotDocuments(transactionId: string, docType: string)
    ensures D.MkKey(transactionId, docType) !in {"metric:signings", "metric:fetching", "metric:validations"}
    ensures (SIGNINGS, FETCHINGS, VALIDATIONS) == ("metric:signings", "metric:fetching", "metric:validations")
    ensures SIGNINGS != FETCHINGS && SIGNINGS != VALIDATIONS && FETCHINGS != VALIDATIONS
  {
    assert SIGNINGS[7] != FETCHINGS[7] && SIGNINGS[7] != VALIDATIONS[7] && FETCHINGS[7] != VALIDATIONS[7];
    assert D.MkKey(transactionId, docType)[0] == 'd';
  }

  class Metric {
    const client: R.Server
    const key: string

    constructor (client: R.Server, key: string)
      ensures this.client == client && this.key == key
    {
      this.client, this.key := client, key;
    }

    method Inc(call: Call) returns (ok: bool)
      modifies client`counters
      ensures client.counters == if call.reached then R.Incr(old(client.counters), key) else old(client.counters)
      ensures ok == call.response.Acked?
    {
      ok := client.INCR(key, call);
    }

    /** A counter that was never incremented is absent, which is not an error, and reads as 0. */
    method Get(call: Call) returns (value: Option<nat>)
      ensures value == if call.response.Acked? then Some(R.Count(client.counters, key)) else None
    {
      if !call.response.Acked? { return None; }
      value := Some(if key in client.counters then client.counters[key] else 0);
    }
  }

  datatype SignResult = Accepted(transactionId: string) | EmptyPdf | PublishFailed | CountFailed

  /** The ordered effects of one request, with an early exit after each failing step. */
  function SignEffect(jobs: W.Queue<SealRequest>, counters: map<string, nat>, key: string, pdf: string, id: string,
                      publish: Call, incr: Call, now: nat, window: nat)
    : (W.Queue<SealRequest>, map<string, nat>, SignResult)
  {
    if pdf == "" then (jobs, counters, EmptyPdf) else
    var jobs' := if publish.reached then W.Publish(jobs, id, Json(SealRequest(id, pdf)), now, window) else jobs;
    if !publish.response.Acked? then (jobs', counters, PublishFailed) else
    var counters' := if incr.reached then R.Incr(counters, key) else counters;
    if !incr.response.Acked? then (jobs', counters', CountFailed) else (jobs', counters', Accepted(id))
  }

  class Client {
    const doc: D.Doc
    const jobs: W.Stream<SealRequest>
    const signings: Metric
    const fetchings: Metric

    constructor (doc: D.Doc, jobs: W.Stream<SealRequest>)
      ensures this.doc == doc && this.jobs == jobs && Valid()
    {
      this.doc, this.jobs := doc, jobs;
      signings := new Metric(doc.client, SIGNINGS);
      fetchings := new Metric(doc.client, FETCHINGS);
    }

    /** What the constructor set up; none of it can change. */
    predicate Valid() {
      && signings.client == doc.client && signings.key == SIGNINGS
      && fetchings.client == doc.client && fetchings.key == FETCHINGS
    }

    /** What INCR has made of a counter, absent ones being zero. */
    ghost function Counter(key: string): nat
      reads doc.client
    {
      if key in doc.client.counters then doc.client.counters[key] else 0
    }

    /** `id` is the UUID drawn for this request.  The request is not checked against its `base64`
        tag on this route, so any non-empty text is accepted. */
    method PDFSign(pdf: string, id: string, publish: Call, incr: Call) returns (r: SignResult)
      requires Valid()
      modifies jobs`q, signings.client`counters
      ensures (jobs.q, signings.client.counters, r)
           == SignEffect(old(jobs.q), old(signings.client.counters), signings.key,
                      pdf, id, publish, incr, jobs.now, jobs.window)
      ensures r == if pdf == "" then EmptyPdf
                   else if !publish.response.Acked? then PublishFailed
                   else if !incr.response.Acked? then CountFailed
                   else Accepted(id)
      ensures jobs.q == if pdf != "" && publish.reached
                        then W.Publish(old(jobs.q), id, Json(SealRequest(id, pdf)), jobs.now, jobs.window)
                        else old(jobs.q)
      ensures var counted := pdf != "" && publish.response.Acked? && incr.reached;
              && Counter("metric:signings") == old(Counter("metric:signings")) + (if counted then 1 else 0)
              && forall key :: key != "metric:signings" ==> Counter(key) == old(Counter(key))
    {
      if pdf == "" { return EmptyPdf; }
      var ok := jobs.Send(id, Json(SealRequest(id, pdf)), publish);
      if !ok { return PublishFailed; }
      ok := signings.Inc(incr);
      if !ok { return CountFailed; }
      return Accepted(id);
    }

    /** A read that succeeded is still reported as an error when the fetch cannot be counted. */
    method PDFGetSigned(transactionId: string, read: Call, incr: Call) returns (r: Option<Document>)
      requires Valid()
      modifies fetchings.client`counters
      ensures r == if read.response.Acked? && incr.response.Acked?
                   then Some(D.GetSigned(doc.client.hashes, transactionId, doc.client.now)) else None
      ensures fetchings.client.counters
           == if read.response.Acked? && incr.reached then R.Incr(old(fetchings.client.counters), fetchings.key)
              else old(fetchings.client.counters)
      ensures var counted := read.response.Acked? && incr.reached;
              && Counter("metric:fetching") == old(Counter("metric:fetching")) + (if counted then 1 else 0)
              && forall key :: key != "metric:fetching" ==> Counter(key) == old(Counter(key))
    {
      r := doc.Get(transactionId, read);
      if r.None? { return None; }
      var ok := fetchings.Inc(incr);
      if !ok { return None; }
    }
  }
}
