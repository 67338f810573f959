/** Types shared by every part of the model. */
module Common {

  datatype Option<+T> = None | Some(value: T)

  /** An octet, as Python's `bytes` holds them. */
  type Byte = b: int | 0 <= b < 256

  /** The separator of both text formats, store keys and PDF keywords. */
  predicate NoColon(s: string) { ':' !in s }

  /** What the caller of a remote command (a Redict command or a JetStream publish) learns:
      the server's positive answer, a final error, or nothing yet because the client library
      is going to send the command again. */
  datatype Response = Acked | Errored | Again

  /** One attempt at a remote command: whether the server executed it and what the caller
      learned.  A server can execute a command whose answer is lost, but it cannot confirm
      a command it never received. */
  datatype Call = Call(reached: bool, response: Response) {
    predicate Possible() { response.Acked? ==> reached }
  }

  /** The attempt in which nothing goes wrong. */
  const OK: Call := Call(true, Acked)

  /** The cached document (pkg/model/model.go).  `ZERO` is Go's zero value of the struct. */
  datatype Document = Document(
    transactionId: string, data: string, sealerBackend: string,
    message: string, revokedAt: int, reason: string)

  const ZERO: Document := Document("", "", "", "", 0, "")

  /** The JSON payloads on the two work queues. */
  datatype SealRequest = SealRequest(transactionId: string, data: string)

  datatype SealReply = SealReply(transactionId: string, data: string, error: string, sealerBackend: string)

  /** A message body: JSON that decodes to `value`, or text on which decoding reports an error
      after having filled in `partial` (Go's decoder skips a field of the wrong type, goes on with
      the others and returns the error at the end). */
  datatype Payload<+T> = Json(value: T) | Malformed(partial: T)

  lemma SubsetSize<T>(a: set<T>, b: set<T>)
    requires a <= b
    ensures |a| <= |b|
  {
    assert b == a + (b - a);
  }
}
