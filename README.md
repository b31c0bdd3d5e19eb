# Certificate extraction of the iText BouncyCastle-FIPS adapter

`X509CertificateParserBCFips` turns a byte buffer into a list of X.509
certificates. The buffer holds, back to back, DER objects of two kinds:

- a bare certificate `SEQUENCE` (section 4.1 of RFC 5280), which gives one
  certificate;
- a PKCS#7 `ContentInfo` whose content type is `signedData` (sections 7 and
  9.1 of RFC 2315). Its `[0] EXPLICIT` content is read as a `SignedData`,
  and the members of its `certificates` set are handed out one per read.

The parser keeps the pending set (`sData`) and the read index into it
(`sDataObjectCount`) in two fields across reads. Extraction stops at the
end of the buffer, at a `0x00` byte where an object would start, or once a
pending set is exhausted, so nothing after an envelope is ever read.
Members of the set that are not sequences are skipped. A top-level object
that is not a sequence, or bytes the decoder rejects, make the whole call
throw; no partial list is returned.

Project layout:

- `asn1.dfy` (module `Asn1`): the decoded ASN.1 objects the parser tells
  apart, the signedData object identifier, and the decoder as a parameter.
- `streams.dfy` (module `Streams`): the memory stream over the buffer and
  the one-byte push-back stream the parser wraps around it.
- `extraction.dfy` (module `CertificateExtraction`): the specification.
  One read is the function `ReadStep`, the pending-set step is `TakeNext`,
  and a whole extraction is `Extract` / `ExtractAll`. It also holds the
  reference readings (`CertificatesFrom`, `BareCertificates`) and the
  lemmas relating the two.
- `parser.dfy` (module `X509Parser`): the class
  `X509CertificateParserBCFips` with its two fields and three methods, each
  proved to compute what the specification functions say.

The BouncyCastle operations the parser calls are passed in as a `Backend`
value:

- `decode` is `Asn1InputStream.ReadObject` applied to the remaining bytes.
  It returns the object and the number of bytes it used, or a failure.
- `signedDataCertificates` is `SignedData.GetInstance(...).Certificates`.
  It gives an invalid structure, an absent field, or the members of the set.
- `isCertificateStructure` says whether `X509CertificateStructure.GetInstance`
  accepts a sequence.

`ValidDecoder` states the one thing the model assumes of the decoder. When
it succeeds, it uses at least one byte and no more bytes than remain.

## Model

| member | source | states |
|---|---|---|
| X509Parser.X509CertificateParserBCFips.constructor | itext/itext.bouncy-castle-fips-adapter/itext/bouncycastlefips/x509/X509CertificateParserBCFips.cs:47-49 | a new parser has no pending set and a read index of 0 |
| X509Parser.X509CertificateParserBCFips.ReadAllCerts | itext/itext.bouncy-castle-fips-adapter/itext/bouncycastlefips/x509/X509CertificateParserBCFips.cs:52-62 | the result is exactly the whole-buffer extraction `ExtractAll` from a reset state, so it does not depend on earlier calls; the fields end in that extraction's final state |
| X509Parser.X509CertificateParserBCFips.ReadCertificate | itext/itext.bouncy-castle-fips-adapter/itext/bouncycastlefips/x509/X509CertificateParserBCFips.cs:64-90 | one read returns, and leaves the fields and (unless it throws) the stream position, exactly as `ReadStep` of the state before the call says |
| X509Parser.X509CertificateParserBCFips.GetCertificate | itext/itext.bouncy-castle-fips-adapter/itext/bouncycastlefips/x509/X509CertificateParserBCFips.cs:92-103 | the set is unchanged; the certificate returned and the new read index are those of `TakeNext` |
| Streams.MemoryStream.ReadByte | itext/itext.bouncy-castle-fips-adapter/itext/bouncycastlefips/x509/X509CertificateParserBCFips.cs:76 | the next byte of the buffer and an advance by one, or -1 at the end with the position unchanged |
| Streams.PushbackStream.ReadByte | itext/itext.bouncy-castle-fips-adapter/itext/bouncycastlefips/x509/X509CertificateParserBCFips.cs:76 | the first unconsumed byte, and that byte consumed; -1 when nothing is left |
| Streams.PushbackStream.Unread | itext/itext.bouncy-castle-fips-adapter/itext/bouncycastlefips/x509/X509CertificateParserBCFips.cs:80 | the byte pushed back is the next one a reader sees, in front of everything still unconsumed |
| Streams.PushbackStream.ReadObject | itext/itext.bouncy-castle-fips-adapter/itext/bouncycastlefips/x509/X509CertificateParserBCFips.cs:81 | the decoder sees exactly the unconsumed bytes, the pushed-back one first, and on success exactly the bytes it used are consumed |
| CertificateExtraction.FirstSequenceFrom | itext/itext.bouncy-castle-fips-adapter/itext/bouncycastlefips/x509/X509CertificateParserBCFips.cs:94-98 | the index of the first SEQUENCE member at or after the given index, or the end; every member skipped on the way is not a sequence |
| CertificateExtraction.TakeNext | itext/itext.bouncy-castle-fips-adapter/itext/bouncycastlefips/x509/X509CertificateParserBCFips.cs:92-103 | without a set it returns null and leaves the index alone; with a set the index never moves back or past the end, and strictly advances when the set is not exhausted |
| CertificateExtraction.TakeNextFindsFirstSequence | itext/itext.bouncy-castle-fips-adapter/itext/bouncycastlefips/x509/X509CertificateParserBCFips.cs:94-98 | null exactly when no SEQUENCE member is left, with the index at the end; otherwise the certificate of the first SEQUENCE member at or after the index, with the index just past it |
| CertificateExtraction.PendingRead | itext/itext.bouncy-castle-fips-adapter/itext/bouncycastlefips/x509/X509CertificateParserBCFips.cs:65-72 | a pending read never touches the stream; it either drops the set with the index reset to 0, or keeps the set with the index strictly advanced and within bounds; a certificate always leaves the set pending |
| CertificateExtraction.StreamRead | itext/itext.bouncy-castle-fips-adapter/itext/bouncycastlefips/x509/X509CertificateParserBCFips.cs:75-89 | a read from the stream never moves back, leaves a well-formed state, and moves forward whenever it yields a certificate |
| CertificateExtraction.ReadStep | itext/itext.bouncy-castle-fips-adapter/itext/bouncycastlefips/x509/X509CertificateParserBCFips.cs:64-90 | every read leaves a well-formed state and never moves the stream back; a read that yields a certificate makes progress (further in the stream, or fewer pending members left), which is why the read-all loop ends |
| CertificateExtraction.Extract | itext/itext.bouncy-castle-fips-adapter/itext/bouncycastlefips/x509/X509CertificateParserBCFips.cs:58-60 | reading to the end leaves a well-formed state, never moves the stream back, and consumes no byte once a set is pending |
| CertificateExtraction.ExtractAll | itext/itext.bouncy-castle-fips-adapter/itext/bouncycastlefips/x509/X509CertificateParserBCFips.cs:52-61 | extraction over a whole buffer from the reset state ends in a well-formed state |
| CertificateExtraction.EndOfInputStops | itext/itext.bouncy-castle-fips-adapter/itext/bouncycastlefips/x509/X509CertificateParserBCFips.cs:76-78 | at an object boundary, end of stream or a 0x00 byte ends extraction with no certificate and nothing decoded; the 0x00 byte is consumed |
| CertificateExtraction.EmptyBufferYieldsNothing | itext/itext.bouncy-castle-fips-adapter/itext/bouncycastlefips/x509/X509CertificateParserBCFips.cs:52-61 | an empty buffer gives an empty list |
| CertificateExtraction.TopLevelSequenceDispatch | itext/itext.bouncy-castle-fips-adapter/itext/bouncycastlefips/x509/X509CertificateParserBCFips.cs:82-89 | a top-level sequence that is not a signedData envelope, single-element ones included, gives one certificate built from the whole sequence and leaves the parser idle after it; an envelope installs its set with the read index at 0 |
| CertificateExtraction.TopLevelErrors | itext/itext.bouncy-castle-fips-adapter/itext/bouncycastlefips/x509/X509CertificateParserBCFips.cs:81 | bytes the decoder rejects throw a malformed-encoding error; a top-level object that is not a sequence throws an unexpected-structure error |
| CertificateExtraction.PendingIndexAdvances | itext/itext.bouncy-castle-fips-adapter/itext/bouncycastlefips/x509/X509CertificateParserBCFips.cs:65-72 | while a set is pending the stream is untouched; a non-exhausted set keeps the set and strictly advances the index within bounds; an exhausted set is dropped, the index reset to 0 and null returned |
| CertificateExtraction.SkipNonSequences | itext/itext.bouncy-castle-fips-adapter/itext/bouncycastlefips/x509/X509CertificateParserBCFips.cs:94-98 | members that are not sequences contribute nothing to what a set yields |
| CertificateExtraction.PendingSetNext | itext/itext.bouncy-castle-fips-adapter/itext/bouncycastlefips/x509/X509CertificateParserBCFips.cs:66-67 | reading a pending set gives the certificate of its next SEQUENCE member (or that member's error) followed by the rest of the set |
| CertificateExtraction.PendingSetDone | itext/itext.bouncy-castle-fips-adapter/itext/bouncycastlefips/x509/X509CertificateParserBCFips.cs:65-72 | a pending set with no SEQUENCE member left yields no further certificate |
| CertificateExtraction.PendingSetYields | itext/itext.bouncy-castle-fips-adapter/itext/bouncycastlefips/x509/X509CertificateParserBCFips.cs:65-72 | from any read index, a pending set yields exactly its SEQUENCE members after that index, in stored order, as the reference reading `CertificatesFrom` defines |
| CertificateExtraction.EnvelopeInstallsSet | itext/itext.bouncy-castle-fips-adapter/itext/bouncycastlefips/x509/X509CertificateParserBCFips.cs:82-86 | an envelope with a certificates set leaves the stream just after the envelope and extraction continues exactly as from that set at index 0 |
| CertificateExtraction.EnvelopeEndsExtraction | itext/itext.bouncy-castle-fips-adapter/itext/bouncycastlefips/x509/X509CertificateParserBCFips.cs:82-86 | an envelope yields the certificates of its set and nothing else (nothing for an absent set, the error for one that cannot be unwrapped); no byte after it is read |
| CertificateExtraction.EnvelopeWithSet | itext/itext.bouncy-castle-fips-adapter/itext/bouncycastlefips/x509/X509CertificateParserBCFips.cs:84-86 | an envelope whose certificates field is present yields exactly the SEQUENCE members of that set, in stored order |
| CertificateExtraction.EnvelopeWithoutSet | itext/itext.bouncy-castle-fips-adapter/itext/bouncycastlefips/x509/X509CertificateParserBCFips.cs:84-86 | an envelope that cannot be unwrapped throws; one with an absent certificates field ends extraction with no certificate |
| CertificateExtraction.BareCertificateStep | itext/itext.bouncy-castle-fips-adapter/itext/bouncycastlefips/x509/X509CertificateParserBCFips.cs:89 | a bare certificate sequence gives its certificate, and extraction goes on just after it |
| CertificateExtraction.BareCertificatesInOrder | itext/itext.bouncy-castle-fips-adapter/itext/bouncycastlefips/x509/X509CertificateParserBCFips.cs:58-59 | N back-to-back certificate sequences give N certificates in stream order, in front of whatever follows them |
| CertificateExtraction.ConcatenatedCertificates | itext/itext.bouncy-castle-fips-adapter/itext/bouncycastlefips/x509/X509CertificateParserBCFips.cs:52-61 | a buffer made only of N certificate sequences gives exactly those N certificates, in order |
| CertificateExtraction.EnvelopeAfterCertificates | itext/itext.bouncy-castle-fips-adapter/itext/bouncycastlefips/x509/X509CertificateParserBCFips.cs:58-60 | certificate sequences followed by an envelope give those certificates and then the envelope's set; extraction stops at the end of the envelope |
| CertificateExtraction.ErrorDiscardsEarlierCertificates | itext/itext.bouncy-castle-fips-adapter/itext/bouncycastlefips/x509/X509CertificateParserBCFips.cs:52-61 | any read that throws after any number of certificates fails the whole call with that read's error, and no partial list is returned; this covers bytes the decoder rejects, a top-level object that is not a sequence, a sequence the library rejects as a certificate, and an envelope that cannot be unwrapped |

## Left out

- BouncyCastle's ASN.1 decoding, `SignedData` parsing and
  `X509CertificateStructure` checks are library code. They are the
  parameters of `Backend`, and only their outcomes are modelled.
- `Asn1Sequence.GetInstance(tagged, true)` is modelled as taking the
  explicit content of the tagged object, which must be a sequence. The tag
  number is not checked, and the model does not check it either.
- CertificateExtraction.MakeCertificate: the model's definition of the
  library call at lines 89 and 97 (`X509CertificateStructure.GetInstance` and
  the `X509Certificate` constructor), in terms of
  `Backend.isCertificateStructure`. Its contract restates that definition,
  so it states nothing about the library beyond it.
- CertificateExtraction.EnvelopeCertificates: the model's definition of the
  cast to a tagged object and the two `GetInstance` calls at lines 84-85, in
  terms of `Backend.signedDataCertificates`. The envelope lemmas state
  their premises in terms of the library's outcome, not of this function.
- A certificate is modelled as the sequence it was built from. The
  `X509CertificateBCFips` wrapper added to the list at line 59 does nothing
  else and is not modelled.
- ReadCertificate: the stream position after a read that throws is not stated.
  Once a read throws, the caller discards the parser's work, so that position
  is never used.
- Streams.PushbackStream.Unread: pushing back a second byte while the slot is
  full throws in the library. The model makes an empty slot a precondition,
  because the parser unreads only right after a read.
- The model does not assume that the decoder's result depends only on the
  bytes of one object. As in the source, bytes after an envelope are never
  read.
- Exceptions are modelled as two error kinds. MalformedEncoding covers the
  decoder's I/O and encoding errors. UnexpectedStructure covers failed casts
  and the library's structure checks. Exception messages and types are not
  modelled.
- The parser checks neither certificate content nor signatures (RFC 5280
  validation), and neither does the model.
