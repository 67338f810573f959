/** The validator (src/eduseal/validator/run.py) and the printer/parser pair it forms with the
    sealer. */
module Validator {
  import opened Common
  import Base64
  import Keywords
  import P = Pdf
  import S = Sealer

  datatype ValidateReply = ValidateReply(
    validationBackend: string, error: string, intactSignature: bool, validSignature: bool, transactionId: string)

  /** The signature check either raises or reports two flags. */
  datatype Check = Checked(intact: bool, valid: bool) | CheckRaised

  function Failed(backend: string, error: string): ValidateReply {
    ValidateReply(backend, error, false, false, "")
  }

  /** `text` is the text of whatever exception is caught. */
  function Validate(lib: P.Library, backend: string, data: string, check: Check, text: string): ValidateReply {
    var bytes := Base64.Decode(data);
    var pdf := if bytes.None? then None else P.Read(lib, bytes.value);
    if pdf.None? then Failed(backend, "Error reading PDF: " + text)
    else if pdf.value.signatures == 0 then Failed(backend, "No signature found")
    else if check.CheckRaised? then Failed(backend, "Validation error " + text)
    else match Keywords.ParseKeywords(pdf.value.keywords)
      case Raised => Failed(backend, "Error getting transaction_id " + text)
      case Absent => ValidateReply(backend, "", check.intact, check.valid, "")
      case Found(id) => ValidateReply(backend, "", check.intact, check.valid, id)
  }

  /** The PDF that the data decodes to, if it does and the reader takes it. */
  function Received(lib: P.Library, data: string): Option<P.Document> {
    var bytes := Base64.Decode(data);
    if bytes.None? then None else P.Read(lib, bytes.value)
  }

  /** `k` is the first keyword whose first colon-field is the label. */
  predicate FirstLabelled(keywords: seq<string>, k: nat) {
    && k < |keywords| && Keywords.Split(keywords[k])[0] == "transaction_id"
    && forall i :: 0 <= i < k ==> Keywords.Split(keywords[i])[0] != "transaction_id"
  }

  predicate EmptySecondField(keyword: string) {
    |Keywords.Split(keyword)| >= 2 && Keywords.Split(keyword)[1] == ""
  }

  predicate NoneLabelled(keywords: seq<string>) {
    forall i :: 0 <= i < |keywords| ==> Keywords.Split(keywords[i])[0] != "transaction_id"
  }

  /** A label without a colon, on which taking the second field raises. */
  ghost predicate BareLabelFirst(keywords: seq<string>) {
    exists k: nat :: FirstLabelled(keywords, k) && keywords[k] == "transaction_id"
  }

  /** Which of the five exits is taken, and with which error, for every input; a reply with an error
      says nothing else, and one without carries the two flags of the signature check. */
  lemma ValidateExits(lib: P.Library, backend: string, data: string, check: Check, text: string)
    ensures var r, pdf := Validate(lib, backend, data, check, text), Received(lib, data);
            && r.validationBackend == backend
            && (r.error == "Error reading PDF: " + text <==> pdf.None?)
            && (r.error == "No signature found" <==> pdf.Some? && pdf.value.signatures == 0)
            && (r.error == "Validation error " + text <==>
                  pdf.Some? && pdf.value.signatures > 0 && check.CheckRaised?)
            && (r.error == "Error getting transaction_id " + text <==>
                  pdf.Some? && pdf.value.signatures > 0 && check.Checked? && BareLabelFirst(pdf.value.keywords))
            && (r.error == "" <==>
                  pdf.Some? && pdf.value.signatures > 0 && check.Checked? && !BareLabelFirst(pdf.value.keywords))
            && (r.error != "" ==> !r.intactSignature && !r.validSignature && r.transactionId == "")
            && (r.error == "" ==> r.intactSignature == check.intact && r.validSignature == check.valid)
  {
    ErrorsDiffer(text);
    hide P.Read, Base64.Decode;
    if Received(lib, data).Some? { Lookups(Received(lib, data).value.keywords); }
  }

  lemma ErrorsDiffer(text: string)
    ensures var (a, b, c, d) := ("Error reading PDF: " + text, "No signature found", "Validation error " + text,
                                 "Error getting transaction_id " + text);
            a != b && a != c && a != d && b != c && b != d && c != d && "" !in {a, b, c, d}
  {
    var (a, b, c, d) := ("Error reading PDF: " + text, "No signature found", "Validation error " + text,
                         "Error getting transaction_id " + text);
    assert a[0] == 'E' && a[6] == 'r' && b[0] == 'N' && c[0] == 'V' && d[0] == 'E' && d[6] == 'g';
  }

  /** The search through the keywords, without its recursion. */
  lemma {:induction false} Lookups(keywords: seq<string>)
    ensures Keywords.ParseKeywords(keywords).Absent? <==> NoneLabelled(keywords)
    ensures Keywords.ParseKeywords(keywords).Raised? <==> BareLabelFirst(keywords)
    ensures forall k: nat :: FirstLabelled(keywords, k) && keywords[k] != "transaction_id" ==>
              |Keywords.Split(keywords[k])| >= 2
              && Keywords.ParseKeywords(keywords) == Keywords.Found(Keywords.Split(keywords[k])[1])
    ensures NoneLabelled(keywords) || exists k: nat :: FirstLabelled(keywords, k)
    decreases |keywords|
  {
    hide Keywords.Split, Keywords.Join;
    assert forall s :: Keywords.Labelled(s) <==> Keywords.Split(s)[0] == "transaction_id";
    var k := First(keywords, 0);
    if k < |keywords| {
      Keywords.ParseFirstLabelled(keywords, k);
      OnlyFirst(keywords, k);
    } else {
      NoLookup(keywords);
      assert !exists j: nat :: FirstLabelled(keywords, j);
    }
  }

  lemma {:induction false} First(keywords: seq<string>, from: nat) returns (k: nat)
    requires from <= |keywords| && forall i :: 0 <= i < from ==> Keywords.Split(keywords[i])[0] != "transaction_id"
    ensures if k < |keywords| then FirstLabelled(keywords, k) else NoneLabelled(keywords)
    decreases |keywords| - from
  {
    hide Keywords.Split;
    if from == |keywords| || Keywords.Split(keywords[from])[0] == "transaction_id" {
      k := from;
    } else {
      k := First(keywords, from + 1);
    }
  }

  lemma OnlyFirst(keywords: seq<string>, k: nat)
    requires FirstLabelled(keywords, k)
    ensures !NoneLabelled(keywords) && forall j: nat :: FirstLabelled(keywords, j) ==> j == k
  {
    hide Keywords.Split;
  }

  lemma {:induction false} NoLookup(keywords: seq<string>)
    requires NoneLabelled(keywords)
    ensures Keywords.ParseKeywords(keywords).Absent?
    decreases |keywords|
  {
    hide Keywords.Split;
    if keywords != [] { NoLookup(keywords[1..]); }
  }

  /** The id that a reply without an error reports: the second colon-field of the first labelled keyword,
      however many keywords there are, and nothing exactly if no keyword is labelled or that field
      is empty.  A reply with an error reports none. */
  lemma ReportedIdIsInPdf(lib: P.Library, backend: string, data: string, check: Check, text: string)
    ensures var r := Validate(lib, backend, data, check, text);
            && (r.error != "" ==> r.transactionId == "")
            && (r.error == "" ==>
                  && Received(lib, data).Some?
                  && var keywords := Received(lib, data).value.keywords;
                     && (forall k: nat :: FirstLabelled(keywords, k) ==>
                           |Keywords.Split(keywords[k])| >= 2 && r.transactionId == Keywords.Split(keywords[k])[1])
                     && (r.transactionId == "" <==>
                           NoneLabelled(keywords)
                           || exists k: nat :: FirstLabelled(keywords, k) && EmptySecondField(keywords[k])))
  {
    ValidateExits(lib, backend, data, check, text);
    hide P.Read, Base64.Decode;
    if Validate(lib, backend, data, check, text).error == "" {
      var keywords := Received(lib, data).value.keywords;
      Lookups(keywords);
      forall k: nat | FirstLabelled(keywords, k)
        ensures |Keywords.Split(keywords[k])| >= 2
                && Keywords.ParseKeywords(keywords) == Keywords.Found(Keywords.Split(keywords[k])[1])
      {
        assert keywords[k] != "transaction_id";
      }
    }
  }

  /** The codec law across the two services.  Whatever `Seal` returned for a request, if it carries
      data then that data decodes to a PDF with the content of the uploaded one and the id as its only
      keyword, and `Validate` reports the first colon-field of the transaction id: the id itself exactly when it has no
      colon. */
  lemma SealThenValidate(lib: P.Library, sealBackend: string, req: SealRequest, reply: SealReply,
                         backend: string, check: Check, text: string)
    requires P.Sound(lib) && S.Replies(lib, sealBackend, req, reply)
    requires reply.data != "" && check.Checked?
    ensures Validate(lib, backend, reply.data, check, text)
         == ValidateReply(backend, "", check.intact, check.valid, Keywords.Split(req.transactionId)[0])
    ensures Keywords.Split(req.transactionId)[0] == req.transactionId <==> NoColon(req.transactionId)
    ensures S.IsLabelledCopy(lib, req, reply.data)
  {
    S.SealIsLabelledCopy(lib, sealBackend, req, reply);
    S.ReplyShape(lib, sealBackend, req, reply);
    var signed :| S.IsSealOf(lib, req, signed) && reply.data == Base64.Encode(signed, Base64.Standard);
    Base64.RoundTrip(signed, Base64.Standard);
    Keywords.PrintParse(req.transactionId);
  }
}
