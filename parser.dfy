/** The certificate parser object: its two fields hold the pending
    certificate set and the read index into it across calls, and its methods
    are proved to compute what the functions of `CertificateExtraction`
    specify. */
module X509Parser {
  import opened Asn1
  import opened Streams
  import opened CertificateExtraction

  class X509CertificateParserBCFips {
    /** The certificate set of the envelope being read, if any. */
    var sData: Option<seq<Obj>>
    /** How many members of `sData` have been read. */
    var sDataObjectCount: nat

    ghost predicate Valid()
      reads this
    {
      && (sData.None? ==> sDataObjectCount == 0)
      && (sData.Some? ==> sDataObjectCount <= |sData.value|)
    }

    constructor ()
      ensures Valid()
      ensures sData == None && sDataObjectCount == 0
    {
      sData := None;
      sDataObjectCount := 0;
    }

    /** Every certificate in `contentsKey`, in order, or the first exception.
        The fields are reset first, so the result depends on `contentsKey`
        alone and not on earlier calls. */
    method ReadAllCerts(be: Backend, contentsKey: seq<byte>) returns (certs: Result<seq<Certificate>>)
      requires ValidDecoder(be.decode)
      modifies this
      ensures Valid()
      ensures certs == ExtractAll(be, contentsKey).result
      ensures sData == ExtractAll(be, contentsKey).final.sData
      ensures sDataObjectCount == ExtractAll(be, contentsKey).final.count
    {
      var found: seq<Certificate> := [];
      sData := None;
      sDataObjectCount := 0;
      var stream := new MemoryStream(contentsKey);
      ghost var whole := ExtractAll(be, contentsKey);
      PrependNothing(whole);
      while true
        invariant stream.Valid() && stream.buffer == contentsKey && Valid()
        invariant ValidState(contentsKey, State(stream.position, sData, sDataObjectCount))
        invariant whole == Prepend(found, Extract(be, contentsKey, State(stream.position, sData, sDataObjectCount)))
        decreases |contentsKey| - stream.position, Remaining(State(stream.position, sData, sDataObjectCount))
      {
        ghost var st := State(stream.position, sData, sDataObjectCount);
        ExtractUnfold(be, contentsKey, st);
        var cert := ReadCertificate(be, stream);
        match cert
        case Got(c) =>
          PrependPrepend(found, [c], Extract(be, contentsKey, State(stream.position, sData, sDataObjectCount)));
          found := found + [c];
        case Null =>
          assert found + [] == found;
          return Success(found);
        case Thrown(e) =>
          return Failure(e);
      }
    }

    /** One step: the next certificate of the pending set, or of the stream;
        null at the end of either. */
    method ReadCertificate(be: Backend, stream: MemoryStream) returns (r: Read)
      requires Valid() && stream.Valid() && ValidDecoder(be.decode)
      modifies this, stream
      ensures Valid() && stream.Valid()
      ensures var s := ReadStep(be, stream.buffer, State(old(stream.position), old(sData), old(sDataObjectCount)));
              && r == s.read
              && sData == s.next.sData
              && sDataObjectCount == s.next.count
              && (!r.Thrown? ==> stream.position == s.next.pos)
    {
      ghost var st := State(stream.position, sData, sDataObjectCount);
      if sData.Some? {
        assert ReadStep(be, stream.buffer, st) == PendingRead(be, st);
        if sDataObjectCount != |sData.value| {
          r := GetCertificate(be);
          return;
        }
        sData := None;
        sDataObjectCount := 0;
        return Null;
      }
      assert ReadStep(be, stream.buffer, st) == StreamRead(be, stream.buffer, st);

      var pushbackStream := new PushbackStream(stream);
      var tag := pushbackStream.ReadByte();
      if tag <= 0 {
        assert st.pos == |stream.buffer| || stream.buffer[st.pos] == 0;
        return Null;
      }
      pushbackStream.Unread(tag);
      assert pushbackStream.Unconsumed() == stream.buffer[st.pos..];
      var decoded := pushbackStream.ReadObject(be.decode);
      assert decoded == be.decode(stream.buffer[st.pos..]);
      if decoded.Malformed? {
        return Thrown(MalformedEncoding);
      }
      assert stream.position == st.pos + decoded.length;
      if !decoded.obj.Seq? {
        return Thrown(UnexpectedStructure);
      }
      var items := decoded.obj.items;
      if |items| > 1 && items[0].Oid? {
        if items[0].arcs == SignedDataOid {
          var certificates := EnvelopeCertificates(be, items);
          if certificates.Failure? {
            return Thrown(certificates.error);
          }
          sData := certificates.value;
          r := GetCertificate(be);
          return;
        }
      }
      r := MakeCertificate(be, items);
    }

    /** The certificate of the next SEQUENCE member of the pending set,
        skipping the other members; null when there is none. */
    method GetCertificate(be: Backend) returns (r: Read)
      requires Valid()
      modifies this
      ensures Valid() && sData == old(sData)
      ensures (r, sDataObjectCount) == TakeNext(be, old(sData), old(sDataObjectCount))
    {
      if sData.Some? {
        var members := sData.value;
        while sDataObjectCount < |members|
          invariant sData == old(sData) && Valid()
          invariant old(sDataObjectCount) <= sDataObjectCount
          invariant forall k :: old(sDataObjectCount) <= k < sDataObjectCount ==> !members[k].Seq?
          decreases |members| - sDataObjectCount
        {
          var obj := members[sDataObjectCount];
          sDataObjectCount := sDataObjectCount + 1;
          if obj.Seq? {
            return MakeCertificate(be, obj.items);
          }
        }
      }
      return Null;
    }
  }
}
