/** The slice of ASN.1 (ITU-T X.690) that the certificate extractor looks at.
    Tag-length-value decoding itself belongs to the ASN.1 library and is a
    parameter of the model: a `Decoder` maps the bytes that remain in the
    stream to one decoded object and the number of bytes it consumed. */
module Asn1 {

  newtype byte = x: int | 0 <= x < 0x100

  /** A decoded ASN.1 object, as far as the extractor distinguishes them. */
  datatype Obj =
    | Seq(items: seq<Obj>)            // Asn1Sequence
    | Oid(arcs: seq<nat>)             // DerObjectIdentifier
    | Tagged(tagNo: nat, inner: Obj)  // Asn1TaggedObject, explicitly tagged
    | Other                           // INTEGER, SET, OCTET STRING, ...

  /** The PKCS#7 signedData content type, 1.2.840.113549.1.7.2
      (section 14 of RFC 2315). */
  const SignedDataOid: seq<nat> := [1, 2, 840, 113549, 1, 7, 2]

  /** What one call of the decoder yields: a failure (malformed encoding,
      premature end of input) or an object and the bytes it occupied. */
  datatype Decoded = Malformed | Decoded(obj: Obj, length: nat)

  type Decoder = seq<byte> -> Decoded

  /** A decoder never succeeds without consuming at least one byte, and never
      consumes more bytes than it was given. */
  ghost predicate ValidDecoder(decode: Decoder)
  {
    forall rest: seq<byte> :: decode(rest).Decoded? ==> 0 < decode(rest).length <= |rest|
  }
}
