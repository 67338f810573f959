/** PDF documents as far as the services look at them, and what is assumed of the PDF library. */
module Pdf {
  import opened Common

  datatype Document = Document(content: seq<Byte>, keywords: seq<string>, signatures: nat)

  /** What opening bytes comes to: a document, the library's PdfReadError, or another exception. */
  datatype Opening = Opened(document: Document) | ReadError | OpenRaises

  /** What signing a document comes to when the signing hardware works: a signature, the library's
      PdfKeyNotAvailableError, or another exception. */
  datatype Signing = CanSign | Encrypted | SignRaises

  /** `open` is the library's parser, the same for the sealer's writer and the validator's reader, and
      `signing` tells what becomes of an attempt to sign.  Both depend on the input only.  Signing
      itself is not a function: `signs(d, b)` holds when signing `d` can produce the bytes `b`, and
      two sealers give two signatures. */
  datatype Library = Library(
    open: seq<Byte> -> Opening, signing: Document -> Signing, signs: (Document, seq<Byte>) -> bool)

  /** The document in the bytes, for a caller who catches every exception. */
  function Read(lib: Library, bytes: seq<Byte>): Option<Document> {
    match lib.open(bytes) case Opened(d) => Some(d) case ReadError => None case OpenRaises => None
  }

  /** The assumption on signing: exactly the documents that can be signed have a signature, and its
      output reads back as the document it was given, with the same keywords and at least one
      embedded signature. */
  ghost predicate Sound(lib: Library) {
    && (forall d, b :: lib.signs(d, b) ==>
          lib.signing(d).CanSign?
          && Read(lib, b).Some?
          && Read(lib, b).value.content == d.content
          && Read(lib, b).value.keywords == d.keywords
          && Read(lib, b).value.signatures >= 1)
    && (forall d :: lib.signing(d).CanSign? ==> exists b :: lib.signs(d, b))
  }
}
