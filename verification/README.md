# eduSeal: a verified model of the sealing pipeline

eduSeal seals PDFs asynchronously. An API gateway draws a transaction id and publishes a job on the
SEAL work queue; sealers fetch jobs, sign the PDF with the id as a keyword and publish the reply on the
CACHE work queue; cachers save replies in Redict, where they live for ten seconds; clients poll for
them; a validator reads the id back out of a sealed PDF. Delivery is at least once, every remote
command can be lost or can take effect and then report an error, client libraries repeat commands, and
every process can crash between any two of them.

The project models this in three layers.

- **Handlers in the form the source gives them.** Classes with methods for the Redict server, the
  document store, the streams and their deliveries, the sealer with its queue loop, the cache consumer
  and the gateway. What a library or the network answers is a parameter. Each method's contract fixes
  its whole effect on the queues, the store and the counters.
- **The pipeline as a step system** (`Pipeline`), for any number of gateways, sealers and cachers. A step
  is one remote command or one local decision of one process. `Handlers` proves that each handler,
  undisturbed, is a run of this system with the same effect.
- **Theorems over whole runs** (`Theorems`, `Agreement`, `Orphans`, `Counting`, `Drain`, `Results`), and
  concrete runs (`Scenarios`) showing that their conditions are needed.

## What is assumed of the environment

- A message leaves a work queue only when it is acked, and may be delivered again at any time before.
- A publish whose id was stored less than a window ago succeeds without storing. The code does not set
  the window; it is a parameter, positive where it matters (JetStream replaces zero by its default).
- On one delivery the first terminal answer that could be handed to the connection wins
  (vendor/github.com/nats-io/nats.go/jetstream/message.go:330-377). `InProgress` has no lasting effect.
- A Redict entry is readable while the clock is before its deadline; HSET on a live key keeps the
  deadline; EXPIRE on an absent key is a silent no-op.
- UUIDs are never drawn twice.
- Opening bytes gives a document, a `PdfReadError` or another exception, and signing a document gives a
  signature, a `PdfKeyNotAvailableError` or another exception; which of the three depends on the input
  alone. The signature itself is a relation, so two sealers give two; its output reads back with the same
  content and keywords and at least one signature (`Pdf.Sound`). On top of that the PKCS#11 signer, the
  signature metadata and the signing hardware can fail at any time.

## What the proofs found

- **A lost nak can lose a job.** `Consume` has no `return` after `Nak` and relies on the client library
  refusing the later `Ack`. The library does so only if the nak could be sent. When it could not and the
  ack can, the message is removed unsaved. `Cacher.FallThroughIsEarlyReturn` gives the exact condition,
  `Theorems.NoJobLost` shows this is the only way to lose a job, `Scenarios.LostNakLosesJob` is a run.
- **Some accepted uploads are poison.** Around decoding and opening, `Seal` catches only `PdfReadError`
  (src/eduseal/sealer/run.py:72-74), and around signing only `PdfKeyNotAvailableError` (run.py:123-131).
  Any other exception takes the sealer down and leaves the job on SEAL for ever. `Sealer.Answerable` is the
  exact condition on the upload: `Drain.DrainedIffAnswerable` proves that the pipeline drains if and only if
  every accepted job meets it. One way not to meet it is text that does not decode, such as base64 without
  its padding (`Base64.DecodeIsExact` says exactly which texts those are): the `base64` tag of the
  sign request is not enforced, since the route binds with a plain decoder
  (internal/apigw/httpserver/bind.go:12-17). Enforcing it would rule out this way and no other
  (`Drain.TaggedIsAnswerableIff`): with a library that does not sign what is already signed (the signature
  field always has the same name, run.py:105), the pipeline's own output is such an upload
  (`Scenarios.SealedAgainIsStuck`).
- **A save can return nil and leave nothing to read.** HSET on an entry that is about to run out keeps the
  old deadline; if that passes before EXPIRE is executed, EXPIRE finds nothing and reports no error.
  `DocStore.SavedIsReadable` gives the exact condition, `DocStore.SavedInVain` a run.
- **An entry can be left without a deadline for ever**, in two ways only: two cachers work on one message at
  once, or the id was given up after a lost nak (`Orphans.NoImmortalOrphan`). `Scenarios` has a run for each.
- **The cluster client repeats INCR**
  (vendor/github.com/redis/go-redis/v9/osscluster.go:938-1013), so the signing counter can exceed the
  requests counted; it is exact if and only if no INCR was executed twice.
- **An undecodable CACHE message can still write to the store**: what the JSON decoder filled in before
  its error is saved although the message is refused. The pipeline itself never produces one.

## Model

| member | source | states |
|---|---|---|
| Base64.RoundTrip | src/eduseal/sealer/run.py:73 | Every byte string survives both legs: the sealer recovers it from either alphabet of RFC 4648, the validator from the standard one, in all padding cases. |
| Base64.TablesAreRfc4648 | src/eduseal/sealer/run.py:141 | Both alphabets are those of Tables 1 and 2 of RFC 4648, and the decoder's table is the inverse of the first. |
| Base64.EncodeIsExact | src/eduseal/sealer/run.py:141 | The printed text is fixed group by group, with padding and zero bits and without line breaks. |
| Base64.DecodeIsExact | src/eduseal/validator/run.py:49 | For every text: the decoder reads the symbols up to the first complete padding, refuses the text if and only if there is none and the symbols do not come in fours, and otherwise returns the octets they spell. |
| Base64.DecodeIgnoresForeign | src/eduseal/validator/run.py:49 | Line breaks and any other characters outside the alphabet change nothing, wherever they stand. |
| Base64.TolerantRoundTrip | src/eduseal/sealer/run.py:73 | A text that becomes the encoding of some bytes when such characters are dropped decodes to those bytes, on both legs. |
| Base64.UnpaddedDecodesIff | src/eduseal/sealer/run.py:73 | A text without padding decodes if and only if its symbols come in fours. |
| Base64.UrlSafeDecodeIsExact | src/eduseal/sealer/run.py:73 | The sealer's decoder is that decoder after replacing the two URL-safe symbols, and refuses exactly the non-ASCII texts besides. |
| Base64.EncodeInjective | src/eduseal/sealer/run.py:141 | Two different signed PDFs never print as the same data. |
| Base64.TagImpliesDecodable | internal/apigw/apiv1/handlers_eduseal.go:18-20 | Every text matching the declared `base64` tag is one the sealer can decode, so the tag would rule out text that does not decode. |
| Base64.EncodedMatchesTag | src/eduseal/sealer/run.py:141 | Whatever the sealer prints matches the tag. |
| Base64.TagIsPattern | internal/apigw/apiv1/handlers_eduseal.go:18-20 | The tag's pattern without recursion: a positive multiple of four characters, of which only the last two can be padding. |
| Keywords.SplitJoin | src/eduseal/validator/run.py:98 | The fields of `split(":")` are colon-free and join back to the string. |
| Keywords.SplitUnique | src/eduseal/validator/run.py:98 | They are the only list of fields that does. |
| Keywords.GetTransactionIdFromKeywords | src/eduseal/validator/run.py:95-102 | The loop with its early return computes the specified lookup, and reports absence exactly when no keyword carries the label. |
| Keywords.ParseFirstLabelled | src/eduseal/validator/run.py:95-102 | Over all keyword lists the answer is the second field of the first labelled keyword, and the IndexError occurs exactly when that keyword has no colon. |
| Keywords.PrintParse | src/eduseal/sealer/run.py:83 | Parsing what the sealer printed gives the id back if and only if the id has no colon. |
| Keywords.UuidHasNoColon | internal/apigw/apiv1/handlers_eduseal.go:48 | Every generated UUID (text form of section 4 of RFC 9562) is non-empty, colon-free and survives printing and parsing. |
| DocStore.MkKeyInjective | pkg/kvclient/doc_methods.go:19-25 | A formatted key determines id and type for every id when types are colon-free. |
| DocStore.MkKeyCollision | pkg/kvclient/doc_methods.go:19-21 | With a colon in the type, two different ids share a key. |
| DocStore.SignedKeyInjective | pkg/kvclient/doc_methods.go:23-25 | Different ids have different keys, whatever characters they contain. |
| DocStore.SaveFrame | pkg/kvclient/doc_methods.go:28-48 | A save under one id, succeeding or failing anywhere, changes no later read or existence check of another. |
| DocStore.SaveErrors | pkg/kvclient/doc_methods.go:32-45 | Which of the three errors comes back, exactly; a save without an id does nothing, and no save touches any key but `doc:<id>:signed`. |
| DocStore.SavedIsReadable | pkg/kvclient/doc_methods.go:37-47 | For every store and every delay between the two commands: a save that returned nil makes the document readable for exactly ten seconds from the EXPIRE on, if and only if no older entry ran out between HSET and EXPIRE. |
| DocStore.SavedInVain | pkg/kvclient/doc_methods.go:37-47 | A history after which a save returns nil and its document can never be read. |
| DocStore.SaveLeaves | pkg/kvclient/doc_methods.go:37-45 | For every way the two commands can go, at two moments: what is read at any later time, and exactly when the entry is left without a deadline. |
| DocStore.CacheRefinesLog | pkg/kvclient/doc_methods.go:28-61 | After any history of time and of saves whose commands succeed, with any delay between the two, the store holds and returns what a plain log of the saves answers. |
| DocStore.PromptSaves | pkg/kvclient/doc_methods.go:28-61 | Where HSET and EXPIRE fall in one millisecond, that answer is the last document saved under the id if it is younger than ten seconds, and otherwise nothing. |
| DocStore.Doc.Save | pkg/kvclient/doc_methods.go:28-48 | The in-place save leaves the store, the clock and the error that the specification gives for the two command outcomes and the delay between them. |
| DocStore.Doc.Get | pkg/kvclient/doc_methods.go:51-61 | Reads the live document or the zero document, or fails with the command. |
| DocStore.Doc.Exists | pkg/kvclient/doc_methods.go:64-69 | True exactly when the command succeeds and a live entry exists under the id. |
| Redict.WriteInherits | pkg/kvclient/doc_methods.go:37 | A write under a key makes its document the one that is read, for as long as the entry it replaced would have lived, and without end if there was none; no other key is affected. |
| Redict.DeadlineBounds | pkg/kvclient/doc_methods.go:42 | From then on the key is live exactly if it was and the time is not over; it reads as before, an absent key stays absent, and no other key is affected. |
| Redict.CounterCounts | pkg/kvclient/metrics.go:17-28 | A counter reads as the number of INCRs executed on it, whatever happens to the others in between. |
| WorkQueue.PublishStores | internal/apigw/stream/seal_stream.go:39-76 | A publish that reached the stream leaves a message of that id stored, now or earlier, and never forgets one. |
| WorkQueue.PublishOncePerWindow | src/eduseal/sealer/run.py:218-222 | Of two publishes of one id, whatever they carry, the second is stored if and only if a window has passed since the copy that the first one stored or met. |
| WorkQueue.Delivery.Nak | vendor/github.com/nats-io/nats.go/jetstream/message.go:330-377 | A nak becomes the terminal answer only if it can be sent. |
| WorkQueue.Delivery.Ack | vendor/github.com/nats-io/nats.go/jetstream/message.go:330-377 | An ack removes the message only if it arrives and no terminal answer was sent before; once handed to the connection it is terminal, also if it is lost. |
| Sealer.Sealer.Seal | src/eduseal/sealer/run.py:68-152 | For every course of the library calls: exactly which reply comes back or that an exception escapes, exactly when it is a seal, and that a seal is a labelled copy of the upload. |
| Sealer.OutcomeIs | src/eduseal/sealer/run.py:72-152 | By the first thing that goes wrong: exactly when an exception escapes, the text of each error, and otherwise data that decodes to the signed bytes. |
| Sealer.SealIsLabelledCopy | src/eduseal/sealer/run.py:83-152 | Data that `Seal` returns decodes to a PDF with the content of the upload, at least one signature, and `transaction_id:<id>` as its only keyword, whatever keywords the upload had. |
| Sealer.SealTextIff | src/eduseal/sealer/run.py:83-141 | What counts as a seal is exactly a printed signature of the upload with that keyword in place of its own. |
| Sealer.RepliedIff | src/eduseal/sealer/run.py:72-152 | The conditions for a request to be replied to, by any sealer and by a healthy one, are exact. |
| Sealer.RepliesExact | src/eduseal/sealer/run.py:68-152 | The replies the pipeline reasons with are exactly those that some course of the library calls makes `Seal` return, and likewise for a healthy sealer. |
| Sealer.HealthySealReturnsIff | src/eduseal/sealer/run.py:72-134 | While nothing fails on the sealer's side, `Seal` returns exactly on the answerable requests; on any other an exception escapes. |
| Sealer.AnswerableHasAnswer | src/eduseal/sealer/run.py:72-152 | Every answerable request has a reply that a healthy sealer can give. |
| Sealer.ReplyShape | src/eduseal/sealer/run.py:75-152 | Every reply carries the request's id and the sealer's name, and is an error without data or a seal of the very PDF in the request, labelled with its id. |
| Sealer.QueueServer.HelpRequest | src/eduseal/sealer/run.py:206-223 | One job: the sealer survives it if and only if `Seal` returned and the publish was confirmed; the reply goes out under the job's header, and the job leaves SEAL only if it survived and the ack arrived. |
| Sealer.QueueServer.Start | src/eduseal/sealer/run.py:206-231 | The loop ends at the first delivery that does not decode, raises in `Seal`, or is not confirmed; both queues are what the deliveries up to that one leave, and a job has left SEAL only if a message under its id is stored on CACHE. |
| Validator.SealThenValidate | src/eduseal/validator/run.py:47-93 | Whatever `Seal` returned with data, `Validate` reports the id up to its first colon, and the PDF inside has the uploaded content and the id as its only keyword. |
| Validator.ValidateExits | src/eduseal/validator/run.py:47-93 | For each of the five exits the exact condition on the input and the text of the error; a reply with an error carries no flag and no id, one without carries the two flags of the signature check. |
| Validator.ReportedIdIsInPdf | src/eduseal/validator/run.py:76-102 | A reply without an error reports the second field of the first labelled keyword, among any number of keywords, and no id exactly when none is labelled or that field is empty. |
| Cacher.FallThroughIsEarlyReturn | internal/apigw/stream/cache_stream.go:107-124 | The callback leaves the stream as one returning after the first nak would, if and only if no failure's naks are all lost while the ack arrives; for decodable messages the store is always the same. |
| Cacher.RemovedOnlyIfSaved | internal/apigw/stream/cache_stream.go:107-124 | Under the same condition, and only then, removal implies a successful decode and save. |
| Cacher.LostNakDropsMessage | internal/apigw/stream/cache_stream.go:119-123 | A message that is removed unsaved although the early-return version would keep it. |
| Cacher.PartialDocumentIsSaved | internal/apigw/stream/cache_stream.go:111-119 | A refused message whose partial content is readable in the store. |
| Cacher.CacheStream.OnMessage | internal/apigw/stream/cache_stream.go:107-124 | The in-place callback saves the id, data and backend of the reply, field by field, and removes the message exactly if no nak was sent and the ack arrived. |
| Gateway.MetricsAreNotDocuments | pkg/kvclient/client.go:73-76 | The three counter keys are distinct, and no document key ever coincides with one of them. |
| Gateway.Metric.Get | pkg/kvclient/metrics.go:22-28 | Reads the count, zero before the first one, or fails with the command. |
| Gateway.Client.PDFSign | internal/apigw/apiv1/handlers_eduseal.go:39-85 | The answer for every outcome of publish and count, what is published, and that the signing counter goes up exactly when the INCR was executed and no other does. |
| Gateway.Client.PDFGetSigned | internal/apigw/apiv1/handlers_eduseal.go:109-138 | Returns what the store holds, unless the read or the fetch counter fails; it touches no counter but the fetch counter. |
| Handlers.SignIsRun | internal/apigw/apiv1/handlers_eduseal.go:39-85 | A PDFSign call is a run of gateway steps with the same queue, counter and reply. |
| Handlers.HelpIsRun | src/eduseal/sealer/run.py:206-223 | A `help_request` is a run of sealer steps with the same two queues, and the sealer survives it exactly if the run has no crash and no failed publish. |
| Handlers.ReplyIsSeal | src/eduseal/sealer/run.py:211 | Conversely, every reply step of the pipeline is a call of `Seal` that the libraries can cause. |
| Handlers.SaveIsRun | pkg/kvclient/doc_methods.go:28-48 | SaveSigned, with time passing between its commands, is a run of cacher steps with the same store and verdict. |
| Handlers.ConsumeIsRun | internal/apigw/stream/cache_stream.go:107-124 | The callback is a run of cacher steps with the same stream and store, and for every payload it gives the message's id up exactly when nothing was saved, every nak was lost and the ack arrived. |
| Handlers.RedeliveryHeals | internal/apigw/stream/cache_stream.go:107-124 | One undisturbed redelivery, with any delay between its commands, gives the entry a deadline, ten seconds from its EXPIRE if it had none. |
| Handlers.CrashLosesOnlyItself | src/eduseal/sealer/run.py:206-231 | Any process can go down at any moment, and nothing but its place in its handler is lost. |
| Handlers.DeliveredAgain | internal/apigw/stream/cache_stream.go:107-124 | Any retained message can be handed to any idle process at any moment, also to a second one. |
| Handlers.RepeatedSave | pkg/kvclient/doc_methods.go:37-45 | Repeating HSET or EXPIRE before its answer arrives leaves what a single execution leaves. |
| Handlers.RepeatedPublish | internal/apigw/stream/seal_stream.go:48-64 | So does repeating a publish, thanks to deduplication. |
| Safety.StepInv | src/eduseal/sealer/run.py:206-223 | Every step of every process keeps the whole pipeline invariant. |
| Safety.RunInv | src/eduseal/sealer/run.py:206-231 | So does every run. |
| Safety.SealerSettles | src/eduseal/sealer/run.py:218-222 | A publish on CACHE that reached the server settles its id even when it was deduplicated. |
| Theorems.NoJobLost | src/eduseal/sealer/run.py:206-223 | In every reachable state an id stored on SEAL is on SEAL, on CACHE, saved, or was given up by an ack after lost naks. |
| Theorems.NoJobLostWhenNaksAreSent | internal/apigw/stream/cache_stream.go:107-124 | No run in which naks can be sent loses a job, under any crashes, overlaps, duplicates and failed commands. |
| Theorems.ForfeitedHadLostNak | internal/apigw/stream/cache_stream.go:115-123 | An id is given up only in runs in which a nak on a message of that very id was lost. |
| Theorems.SavedWasReadable | pkg/kvclient/doc_methods.go:37-47 | For every id counted as saved, a document was readable at some moment of the run. |
| Theorems.HeaderIsPayloadId | internal/apigw/apiv1/handlers_eduseal.go:48-72 | Every message and every held reply or document carries a non-empty payload id equal to its header, so the decode and missing-id failures cannot arise. |
| Theorems.EntryIsFromCache | internal/apigw/stream/cache_stream.go:110-119 | Every entry carries, field by field, the id, data and backend of a message on CACHE under its id. |
| Theorems.Provenance | src/eduseal/sealer/run.py:211-222 | The entry for an id names that id and an existing sealer, has no revocation fields, and its data is empty or a seal of the very PDF accepted under that id, with the id as its only keyword. |
| Theorems.UnambiguousMiss | pkg/kvclient/doc_methods.go:51-61 | A read returns an empty id exactly when no live entry exists, and otherwise the id asked for. |
| Theorems.Traceable | src/eduseal/validator/run.py:47-102 | Any readable document with data, handed to the validator, yields exactly the id it was read under, and contains the uploaded content. |
| Results.EntryIsSealedIff | src/eduseal/sealer/run.py:72-152 | While no PKCS#11 signer or metadata fails, the entry for an upload that opens and can be signed holds its seal, and the entry for any other holds no data. |
| Agreement.OneCopyIffInWindow | src/eduseal/sealer/run.py:218-222 | CACHE stores at most one reply per id over the whole run if and only if all publishes for the id arrive within one window of the first. |
| Agreement.ReadersAgree | src/eduseal/sealer/run.py:218-222 | Then any two reads of the id at any two moments of the run return the same document, even if sealers produced different signatures. |
| Agreement.CopiesAreSpaced | src/eduseal/sealer/run.py:218-222 | Without that condition, copies of one id are at least a window apart. |
| Orphans.NoImmortalOrphan | pkg/kvclient/doc_methods.go:37-45 | If no message is worked on by two cachers at once, every entry without a deadline was created by a message for its id that is still retained, or that id was given up after lost naks, despite crashes between HSET and EXPIRE. |
| Orphans.NoImmortalOrphanWhenNaksAreSent | pkg/kvclient/doc_methods.go:37-45 | While naks can be sent, the creator is always retained. |
| Orphans.StoreEmpties | pkg/kvclient/doc_methods.go:37-45 | Ten seconds after CACHE has been emptied by such a run, nothing can be read any more except under ids that were given up. |
| Scenarios.LostNakLosesJob | internal/apigw/stream/cache_stream.go:115-123 | A complete run that loses an accepted job through a lost nak. |
| Scenarios.LostNakLeavesImmortal | internal/apigw/stream/cache_stream.go:115-123 | A complete run with a single cacher in which EXPIRE fails and the nak is lost, leaving an entry that never expires and no message to heal it. |
| Scenarios.OverlapLeavesImmortal | pkg/kvclient/doc_methods.go:37-45 | A complete run in which two overlapping cachers leave an entry that never expires and no message to heal it. |
| Scenarios.TwoReadersDisagree | src/eduseal/sealer/run.py:218-223 | A complete run in which an ack on SEAL is lost, the job is sealed again a window later, and two reads of one id return two signatures. |
| Scenarios.PoisonIsAccepted | internal/apigw/apiv1/handlers_eduseal.go:43-72 | A request failing its own tag is accepted and leaves a job to which no sealer can reply. |
| Scenarios.SealedAgainIsStuck | src/eduseal/sealer/run.py:103-134 | A complete run in which the pipeline's own output, uploaded again, matches the tag and leaves a stuck job, if the library does not sign what is signed. |
| Scenarios.AssumptionsCanBeMet | src/eduseal/sealer/run.py:68-152 | A concrete library meets everything assumed of it and gives every content a seal, so the theorems and scenarios are not empty. |
| Scenarios.RetriedIncrOvercounts | pkg/kvclient/metrics.go:17-19 | A repeated INCR makes the counter two for one stored id. |
| Counting.CountingSandwich | internal/apigw/apiv1/handlers_eduseal.go:72-84 | Returned ids are distinct, counted and stored; successful replies never exceed the counter; the counter equals the requests counted if and only if no INCR was executed twice, and then never exceeds the ids stored. |
| Counting.ReturnedIdIsKept | internal/apigw/apiv1/handlers_eduseal.go:72-84 | An id a client was given is on its way or saved, while naks can be sent. |
| Drain.PoisonStays | src/eduseal/sealer/run.py:72-81 | In every run, a job whose data does not decode, or whose PDF makes opening raise, is never removed, never answered and never readable. |
| Drain.UnanswerableStays | src/eduseal/sealer/run.py:72-134 | While no PKCS#11 signer or metadata fails, the same holds of every job on which decoding, opening or signing raises. |
| Drain.MeasureDecreases | src/eduseal/sealer/run.py:228-231 | Every fault-free step except time decreases a measure over queues and program counters. |
| Drain.DrainTerminates | src/eduseal/sealer/run.py:228-231 | From any reachable state a fault-free schedule without new requests has a bounded number of steps. |
| Drain.ScheduleExists | src/eduseal/sealer/run.py:228-231 | From every state that meets the invariant there is one that ends where nothing is left to do. |
| Drain.DrainedIffNothingStuck | src/eduseal/sealer/run.py:68-231 | Wherever a fault-free schedule ends, whatever lies behind its start, both queues are empty and every accepted id is settled if and only if no job was stuck at its start and every job stored since is answerable. |
| Drain.DrainedIffAnswerable | src/eduseal/sealer/run.py:68-231 | In runs without PKCS#11 or metadata failures this holds if and only if every accepted job is answerable. |
| Drain.EverythingIsSaved | internal/apigw/stream/cache_stream.go:105-124 | If every accepted job is answerable and no nak of the whole run was lost, the queues end empty and SaveSigned has returned nil for every accepted id. |
| Drain.TaggedIsAnswerableIff | internal/apigw/apiv1/handlers_eduseal.go:18-20 | Exactly when a request that matches the declared tag is answerable; the tag alone does not suffice. |

## Left out

- Agreement.OneCopyIffInWindow: stated for a positive window, because a window of zero cannot be configured.
- Orphans.NoImmortalOrphan: assumes that no message is worked on by two cachers at once, which JetStream does not guarantee; `Scenarios.OverlapLeavesImmortal` shows that it is needed.
- Drain.DrainedIffNothingStuck: an id given up after lost naks counts as settled; `Drain.EverythingIsSaved` is the statement without lost naks. A sealer that a job takes down is restarted only once that job is off SEAL; before, it would get the same job again.
- Sealer.HealthySealReturnsIff: which exception opening and signing raise is a function of the input; an exception that depends on anything else is a failure on the sealer's side.
- DocStore.CacheRefinesLog: covers histories in which both commands of every save succeed; `DocStore.SaveLeaves` covers the others one save at a time.
- Sealer.QueueServer.Start: runs on a given finite sequence of deliveries; waiting for the next message is not modelled.
- Loss of data inside NATS or Redict (restart, eviction, failover), and message or size limits of the streams.
- The exact millisecond at which Redict expires a key; the model expires it at its deadline.
- JSON text: payloads are records, with a separate case for text that does not decode. The sealer's `error` field is dropped at the cache boundary, as `Document` has no such field.
- PDF parsing, signing, certificates and PKCS#11, except for the assumption `Pdf.Sound`; the texts of caught exceptions are parameters.
- Revocation and Mongo: the Mongo-disabled configuration is modelled. `Revoke` writes `revoked_ts` while `RevokedAt` is stored as `revoked_at`, so the two would not meet.
- `DelSigned`: it deletes fields that are not stored, and nothing calls it.
- Health probes and `db.Service.Status`, a fold and a timer.
- `build_trust_roots`: its `itertools.chain` result is discarded, so it returns nothing to reason about.
- HTTP routing and binding, JWT, TLS, logging, tracing, configuration, gRPC resolvers, generated code, Docker and PKI scripts.
- Wall-clock liveness: the code gives no such guarantee, fault-free draining is proved instead.
