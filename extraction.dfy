/** The certificate extractor as pure functions: one step of the "read next
    certificate" state machine (`ReadStep`), the pending-set step it delegates
    to (`TakeNext`), and the whole extraction (`Extract`). The class in
    parser.dfy is proved to compute exactly these; the lemmas below state what
    the extraction yields. */
module CertificateExtraction {
  import opened Asn1

  datatype Option<T> = None | Some(value: T)

  datatype Error =
    | MalformedEncoding    // the decoder rejected the bytes at the current position
    | UnexpectedStructure  // a failed cast, or a structure the library refused

  datatype Result<T> = Success(value: T) | Failure(error: Error)

  /** A certificate; its identity is the decoded structure it was built from. */
  datatype Certificate = Certificate(structure: seq<Obj>)

  /** What the SignedData structure holds in its optional `certificates` field. */
  datatype CertificatesField = InvalidSignedData | Absent | Present(members: seq<Obj>)

  /** The library code the extractor calls:
      - `decode`: read one object from the remaining bytes;
      - `signedDataCertificates`: interpret a sequence as a SignedData
        (RFC 2315 section 9.1) and return its `certificates` field;
      - `isCertificateStructure`: whether a sequence is accepted as a
        certificate structure (RFC 5280 section 4.1). */
  datatype Backend = Backend(
    decode: Decoder,
    signedDataCertificates: seq<Obj> -> CertificatesField,
    isCertificateStructure: seq<Obj> -> bool)

  /** The outcome of one read: a certificate, null, or an exception. */
  datatype Read = Got(cert: Certificate) | Null | Thrown(error: Error)

  /** The stream position and the two fields of the parser. */
  datatype State = State(pos: nat, sData: Option<seq<Obj>>, count: nat)

  datatype Step = Step(read: Read, next: State)

  /** The certificates gathered (or the exception that ended the extraction)
      and the state the parser is left in. */
  datatype Run = Run(result: Result<seq<Certificate>>, final: State)

  /** The pending set's read index never passes its end, and there is no
      index without a set. */
  predicate ValidState(data: seq<byte>, st: State)
  {
    && st.pos <= |data|
    && (st.sData.None? ==> st.count == 0)
    && (st.sData.Some? ==> st.count <= |st.sData.value|)
  }

  /** Members of the pending set not yet read. */
  function Remaining(st: State): nat
  {
    if st.sData.Some? && st.count <= |st.sData.value| then |st.sData.value| - st.count else 0
  }

  /** `st'` comes strictly later than `st`: further along the stream, or at
      the same position with fewer pending members left. */
  predicate Progress(st: State, st': State)
  {
    st.pos < st'.pos || (st.pos == st'.pos && Remaining(st') < Remaining(st))
  }

  /** The envelope test: more than one element, the first an object
      identifier, and that identifier the signedData content type. */
  predicate IsSignedDataEnvelope(items: seq<Obj>)
  {
    |items| > 1 && items[0].Oid? && items[0].arcs == SignedDataOid
  }

  /** Building a certificate from a sequence; the library throws when the
      sequence is not a certificate structure. */
  function MakeCertificate(be: Backend, items: seq<Obj>): (r: Read)
    ensures r.Got? <==> be.isCertificateStructure(items)
    ensures r.Got? ==> r.cert.structure == items
    ensures !r.Got? ==> r == Thrown(UnexpectedStructure)
  {
    if be.isCertificateStructure(items) then Got(Certificate(items)) else Thrown(UnexpectedStructure)
  }

  /** Unwraps an envelope: the second element is cast to a tagged object,
      its explicit content taken as a sequence, and that sequence read as a
      SignedData whose certificates field becomes the pending set. */
  function EnvelopeCertificates(be: Backend, items: seq<Obj>): (r: Result<Option<seq<Obj>>>)
    requires |items| > 1
    ensures r.Failure? ==> r.error == UnexpectedStructure
    ensures r.Success? <==>
              items[1].Tagged? && items[1].inner.Seq? &&
              !be.signedDataCertificates(items[1].inner.items).InvalidSignedData?
    ensures r.Success? && r.value.Some? ==>
              be.signedDataCertificates(items[1].inner.items) == Present(r.value.value)
  {
    match items[1]
    case Tagged(_, inner) =>
      if !inner.Seq? then Failure(UnexpectedStructure)
      else (
        match be.signedDataCertificates(inner.items)
        case InvalidSignedData => Failure(UnexpectedStructure)
        case Absent => Success(None)
        case Present(members) => Success(Some(members)))
    case _ => Failure(UnexpectedStructure)
  }

  /** What an unwrapped envelope yields: the unwrapping error, nothing for an
      absent set, else the certificates of its set. */
  function EnvelopeYield(be: Backend, env: Result<Option<seq<Obj>>>): Result<seq<Certificate>>
  {
    if env.Failure? then Failure(env.error)
    else if env.value.None? then Success([])
    else CertificatesFrom(be, env.value.value)
  }

  /** The index of the first SEQUENCE member at or after `i`, or `|members|`
      when there is none. */
  function FirstSequenceFrom(members: seq<Obj>, i: nat): (j: nat)
    requires i <= |members|
    ensures i <= j <= |members|
    ensures j < |members| ==> members[j].Seq?
    ensures forall k :: i <= k < j ==> !members[k].Seq?
    decreases |members| - i
  {
    if i == |members| || members[i].Seq? then i else FirstSequenceFrom(members, i + 1)
  }

  /** The pending-set step: skip the members that are not sequences, build a
      certificate from the first sequence, and return it with the new read
      index; null (with the index at the end) when no sequence is left, and
      null with nothing changed when there is no set. */
  function TakeNext(be: Backend, sData: Option<seq<Obj>>, count: nat): (r: (Read, nat))
    requires sData.Some? ==> count <= |sData.value|
    ensures sData.None? ==> r == (Null, count)
    ensures sData.Some? ==> count <= r.1 <= |sData.value|
    ensures sData.Some? && count < |sData.value| ==> count < r.1
  {
    if sData.None? then (Null, count)
    else
      var members := sData.value;
      var j := FirstSequenceFrom(members, count);
      if j < |members| then (MakeCertificate(be, members[j].items), j + 1)
      else (Null, |members|)
  }

  /** The pending-set step returns null exactly when no SEQUENCE member is
      left, and then leaves the index at the end; otherwise it returns the
      certificate of the first SEQUENCE member at or after the index, and the
      index points just past that member. */
  lemma TakeNextFindsFirstSequence(be: Backend, members: seq<Obj>, count: nat)
    requires count <= |members|
    ensures var r := TakeNext(be, Some(members), count);
            && (r.0 == Null <==> forall k :: count <= k < |members| ==> !members[k].Seq?)
            && (r.0 == Null ==> r.1 == |members|)
            && (r.0 != Null ==>
                  && members[r.1 - 1].Seq?
                  && r.0 == MakeCertificate(be, members[r.1 - 1].items)
                  && (forall k :: count <= k < r.1 - 1 ==> !members[k].Seq?))
  {
  }

  /** A read while a set is pending: hand out its next certificate, or, once
      the index has reached the end, drop the set and return null. The
      stream is not touched. */
  function PendingRead(be: Backend, st: State): (r: Step)
    requires st.sData.Some? && st.count <= |st.sData.value|
    ensures r.next.pos == st.pos
    ensures r.next.sData.None? ==> r.next.count == 0
    ensures r.next.sData.Some? ==> r.next.sData == st.sData && st.count < r.next.count <= |st.sData.value|
    ensures r.read.Got? ==> r.next.sData.Some?
  {
    if st.count != |st.sData.value| then
      var (read, count) := TakeNext(be, st.sData, st.count);
      Step(read, st.(count := count))
    else
      Step(Null, State(st.pos, None, 0))
  }

  /** A read with no set pending: look at the next byte; end of stream or
      0x00 gives null (the 0x00 is consumed); otherwise decode one object,
      which must be a sequence, and either unwrap it as an envelope or build
      a certificate from the whole of it. */
  function StreamRead(be: Backend, data: seq<byte>, st: State): (r: Step)
    requires ValidDecoder(be.decode) && st.sData.None? && st.count == 0 && st.pos <= |data|
    ensures ValidState(data, r.next)
    ensures st.pos <= r.next.pos
    ensures r.read.Got? ==> st.pos < r.next.pos
  {
    if st.pos == |data| then
      Step(Null, st)
    else if data[st.pos] == 0 then
      Step(Null, st.(pos := st.pos + 1))
    else
      match be.decode(data[st.pos..])
      case Malformed => Step(Thrown(MalformedEncoding), st)
      case Decoded(obj, n) =>
        var after := st.(pos := st.pos + n);
        if !obj.Seq? then Step(Thrown(UnexpectedStructure), after)
        else if IsSignedDataEnvelope(obj.items) then
          match EnvelopeCertificates(be, obj.items)
          case Failure(e) => Step(Thrown(e), after)
          case Success(sData) =>
            var (read, count) := TakeNext(be, sData, st.count);
            Step(read, State(after.pos, sData, count))
        else Step(MakeCertificate(be, obj.items), after)
  }

  /** One call of the parser's "read one certificate" step. */
  function ReadStep(be: Backend, data: seq<byte>, st: State): (r: Step)
    requires ValidDecoder(be.decode) && ValidState(data, st)
    ensures ValidState(data, r.next)
    ensures st.pos <= r.next.pos
    ensures r.read.Got? ==> Progress(st, r.next)
  {
    if st.sData.Some? then PendingRead(be, st) else StreamRead(be, data, st)
  }

  /** Puts `certs` in front of the certificates of a run that succeeded; a
      failed run stays failed. */
  function Prepend(certs: seq<Certificate>, r: Run): Run
  {
    Run(if r.result.Success? then Success(certs + r.result.value) else r.result, r.final)
  }

  /** Reads certificates from state `st` until a read returns null (the
      certificates so far) or throws (the exception alone). */
  function Extract(be: Backend, data: seq<byte>, st: State): (r: Run)
    requires ValidDecoder(be.decode) && ValidState(data, st)
    ensures ValidState(data, r.final)
    ensures st.pos <= r.final.pos
    // once a set is pending, no further byte of the stream is consumed
    ensures st.sData.Some? ==> r.final.pos == st.pos
    decreases |data| - st.pos, Remaining(st)
  {
    var s := ReadStep(be, data, st);
    match s.read
    case Got(c) => Prepend([c], Extract(be, data, s.next))
    case Null => Run(Success([]), s.next)
    case Thrown(e) => Run(Failure(e), s.next)
  }

  /** Extraction over a whole buffer from a fresh state. */
  function ExtractAll(be: Backend, data: seq<byte>): (r: Run)
    requires ValidDecoder(be.decode)
    ensures ValidState(data, r.final)
  {
    Extract(be, data, State(0, None, 0))
  }

  lemma PrependNothing(r: Run)
    ensures Prepend([], r) == r
  {
    if r.result.Success? {
      assert [] + r.result.value == r.result.value;
    }
  }

  lemma PrependPrepend(a: seq<Certificate>, b: seq<Certificate>, r: Run)
    ensures Prepend(a, Prepend(b, r)) == Prepend(a + b, r)
  {
    if r.result.Success? {
      assert a + (b + r.result.value) == (a + b) + r.result.value;
    }
  }

  // ---------------------------------------------------------------------
  // Reference definitions

  /** The certificates a set yields read on its own: every SEQUENCE member in
      stored order, the other members skipped; the first sequence that is no
      certificate structure makes the whole read fail. */
  function CertificatesFrom(be: Backend, members: seq<Obj>): Result<seq<Certificate>>
    decreases |members|
  {
    if members == [] then Success([])
    else if !members[0].Seq? then CertificatesFrom(be, members[1..])
    else if !be.isCertificateStructure(members[0].items) then Failure(UnexpectedStructure)
    else
      match CertificatesFrom(be, members[1..])
      case Success(certs) => Success([Certificate(members[0].items)] + certs)
      case Failure(e) => Failure(e)
  }

  /** The certificates built from a list of certificate sequences. */
  function Certificates(structures: seq<seq<Obj>>): (certs: seq<Certificate>)
    ensures |certs| == |structures|
    ensures forall i :: 0 <= i < |structures| ==> certs[i].structure == structures[i]
  {
    seq(|structures|, i requires 0 <= i < |structures| => Certificate(structures[i]))
  }

  lemma CertificatesCons(structures: seq<seq<Obj>>)
    requires structures != []
    ensures Certificates(structures) == [Certificate(structures[0])] + Certificates(structures[1..])
  {
  }

  /** `data[pos..end]` holds, back to back, top-level certificate sequences
      with the given elements, none of them an envelope. */
  ghost predicate BareCertificates(be: Backend, data: seq<byte>, pos: nat, structures: seq<seq<Obj>>, end: nat)
    decreases |structures|
  {
    if structures == [] then pos == end <= |data|
    else
      && pos < |data|
      && data[pos] != 0
      && var d := be.decode(data[pos..]);
      && d.Decoded?
      && d.obj == Seq(structures[0])
      && !IsSignedDataEnvelope(structures[0])
      && be.isCertificateStructure(structures[0])
      && BareCertificates(be, data, pos + d.length, structures[1..], end)
  }

  // ---------------------------------------------------------------------
  // Properties of one step

  /** At an object boundary, end of stream or a 0x00 byte gives null without
      decoding anything; the 0x00 byte itself is consumed. */
  lemma EndOfInputStops(be: Backend, data: seq<byte>, pos: nat)
    requires ValidDecoder(be.decode) && pos <= |data|
    requires pos == |data| || data[pos] == 0
    ensures Extract(be, data, State(pos, None, 0)) ==
              Run(Success([]), State(if pos == |data| then pos else pos + 1, None, 0))
  {
  }

  /** An empty buffer yields no certificate. */
  lemma EmptyBufferYieldsNothing(be: Backend)
    requires ValidDecoder(be.decode)
    ensures ExtractAll(be, []).result == Success([])
  {
    EndOfInputStops(be, [], 0);
  }

  /** A top-level sequence that is not an envelope, whatever its length,
      yields one certificate built from the whole sequence and leaves the
      parser idle after it; an envelope installs its certificate set. */
  lemma TopLevelSequenceDispatch(be: Backend, data: seq<byte>, pos: nat)
    requires ValidDecoder(be.decode) && pos < |data| && data[pos] != 0
    requires be.decode(data[pos..]).Decoded? && be.decode(data[pos..]).obj.Seq?
    ensures var d := be.decode(data[pos..]);
            var s := ReadStep(be, data, State(pos, None, 0));
            && (!IsSignedDataEnvelope(d.obj.items) ==>
                  s == Step(MakeCertificate(be, d.obj.items), State(pos + d.length, None, 0)))
            && (IsSignedDataEnvelope(d.obj.items) && EnvelopeCertificates(be, d.obj.items).Success? ==>
                  && s.next.pos == pos + d.length
                  && s.next.sData == EnvelopeCertificates(be, d.obj.items).value
                  && (s.read, s.next.count) == TakeNext(be, s.next.sData, 0))
  {
  }

  /** While a set is pending, a read leaves the stream alone; on a set not
      yet exhausted it keeps the set and moves the read index forward by at
      least one, never past the end; on an exhausted set it drops the set,
      resets the index to 0 and returns null. */
  lemma PendingIndexAdvances(be: Backend, data: seq<byte>, st: State)
    requires ValidDecoder(be.decode) && ValidState(data, st) && st.sData.Some?
    ensures var s := ReadStep(be, data, st);
            && s.next.pos == st.pos
            && (st.count < |st.sData.value| ==>
                  s.next.sData == st.sData && st.count < s.next.count <= |st.sData.value|)
            && (st.count == |st.sData.value| ==> s == Step(Null, State(st.pos, None, 0)))
  {
  }

  /** A top-level object that is not a sequence, or bytes the decoder
      rejects, make the read throw. */
  lemma TopLevelErrors(be: Backend, data: seq<byte>, pos: nat)
    requires ValidDecoder(be.decode) && pos < |data| && data[pos] != 0
    ensures var d := be.decode(data[pos..]);
            var s := ReadStep(be, data, State(pos, None, 0));
            && (d.Malformed? ==> s.read == Thrown(MalformedEncoding))
            && (d.Decoded? && !d.obj.Seq? ==> s.read == Thrown(UnexpectedStructure))
  {
  }

  // ---------------------------------------------------------------------
  // Properties of whole extractions

  /** Skipping members that are not sequences does not change what a set
      yields. */
  lemma {:induction false} SkipNonSequences(be: Backend, members: seq<Obj>, i: nat, j: nat)
    requires i <= j <= |members|
    requires forall k :: i <= k < j ==> !members[k].Seq?
    ensures CertificatesFrom(be, members[i..]) == CertificatesFrom(be, members[j..])
    decreases j - i
  {
    if i < j {
      assert members[i..][1..] == members[i + 1..];
      SkipNonSequences(be, members, i + 1, j);
    }
  }

  /** One read of a pending set that is not exhausted is the pending-set
      step, with the stream position unchanged. */
  lemma PendingReadStep(be: Backend, data: seq<byte>, pos: nat, members: seq<Obj>, k: nat)
    requires ValidDecoder(be.decode) && pos <= |data| && k < |members|
    ensures var t := TakeNext(be, Some(members), k);
            ReadStep(be, data, State(pos, Some(members), k)) == Step(t.0, State(pos, Some(members), t.1))
  {
  }

  /** Extraction after one read: the certificate read, if any, in front of
      the rest. */
  lemma ExtractUnfold(be: Backend, data: seq<byte>, st: State)
    requires ValidDecoder(be.decode) && ValidState(data, st)
    ensures var s := ReadStep(be, data, st);
            Extract(be, data, st) ==
              if s.read.Got? then Prepend([s.read.cert], Extract(be, data, s.next))
              else Run(if s.read.Null? then Success([]) else Failure(s.read.error), s.next)
  {
  }

  /** Reading a pending set whose next sequence is at j: that sequence's
      certificate (or its exception) and then the rest of the set. */
  lemma PendingSetNext(be: Backend, data: seq<byte>, pos: nat, members: seq<Obj>, k: nat)
    requires ValidDecoder(be.decode) && pos <= |data| && k < |members|
    requires FirstSequenceFrom(members, k) < |members|
    ensures var j := FirstSequenceFrom(members, k);
            var rest := Extract(be, data, State(pos, Some(members), j + 1));
            Extract(be, data, State(pos, Some(members), k)).result ==
              if be.isCertificateStructure(members[j].items)
              then Prepend([Certificate(members[j].items)], rest).result
              else Failure(UnexpectedStructure)
  {
    var st := State(pos, Some(members), k);
    PendingReadStep(be, data, pos, members, k);
    ExtractUnfold(be, data, st);
  }

  /** The reference reading of a set from a SEQUENCE member on. */
  lemma CertificatesFromSequence(be: Backend, members: seq<Obj>, j: nat)
    requires j < |members| && members[j].Seq?
    ensures var rest := CertificatesFrom(be, members[j + 1..]);
            CertificatesFrom(be, members[j..]) ==
              if !be.isCertificateStructure(members[j].items) then Failure(UnexpectedStructure)
              else if rest.Success? then Success([Certificate(members[j].items)] + rest.value)
              else rest
  {
    assert members[j..][1..] == members[j + 1..];
  }

  /** A pending set with no SEQUENCE member left yields nothing more. */
  lemma PendingSetDone(be: Backend, data: seq<byte>, pos: nat, members: seq<Obj>, k: nat)
    requires ValidDecoder(be.decode) && pos <= |data| && k <= |members|
    requires k == |members| || FirstSequenceFrom(members, k) == |members|
    ensures Extract(be, data, State(pos, Some(members), k)).result == Success([])
    ensures CertificatesFrom(be, members[k..]) == Success([])
  {
    ExtractUnfold(be, data, State(pos, Some(members), k));
    if k < |members| {
      PendingReadStep(be, data, pos, members, k);
    }
    SkipNonSequences(be, members, k, |members|);
    assert members[|members|..] == [];
  }

  /** Reading on from a pending set's next SEQUENCE member at j agrees with
      the reference reading once it does so from just after j. */
  lemma PendingSetStep(be: Backend, data: seq<byte>, pos: nat, members: seq<Obj>, k: nat)
    requires ValidDecoder(be.decode) && pos <= |data| && k < |members|
    requires FirstSequenceFrom(members, k) < |members|
    requires var j := FirstSequenceFrom(members, k);
             Extract(be, data, State(pos, Some(members), j + 1)).result == CertificatesFrom(be, members[j + 1..])
    ensures Extract(be, data, State(pos, Some(members), k)).result == CertificatesFrom(be, members[k..])
  {
    var j := FirstSequenceFrom(members, k);
    SkipNonSequences(be, members, k, j);
    PendingSetNext(be, data, pos, members, k);
    CertificatesFromSequence(be, members, j);
  }

  /** From a pending set read up to index k, extraction yields exactly the
      SEQUENCE members after k, in stored order. */
  lemma {:induction false} PendingSetYields(be: Backend, data: seq<byte>, pos: nat, members: seq<Obj>, k: nat)
    requires ValidDecoder(be.decode) && pos <= |data| && k <= |members|
    ensures Extract(be, data, State(pos, Some(members), k)).result == CertificatesFrom(be, members[k..])
    decreases |members| - k
  {
    if k == |members| || FirstSequenceFrom(members, k) == |members| {
      PendingSetDone(be, data, pos, members, k);
    } else {
      PendingSetYields(be, data, pos, members, FirstSequenceFrom(members, k) + 1);
      PendingSetStep(be, data, pos, members, k);
    }
  }

  /** Unwrapping an envelope whose certificates field is present installs
      that set with its index at 0; extraction goes on exactly as from that
      pending set, positioned just after the envelope. */
  lemma EnvelopeInstallsSet(be: Backend, data: seq<byte>, pos: nat, members: seq<Obj>)
    requires ValidDecoder(be.decode) && pos < |data| && data[pos] != 0
    requires be.decode(data[pos..]).Decoded? && be.decode(data[pos..]).obj.Seq?
    requires IsSignedDataEnvelope(be.decode(data[pos..]).obj.items)
    requires var items := be.decode(data[pos..]).obj.items;
             items[1].Tagged? && items[1].inner.Seq? &&
             be.signedDataCertificates(items[1].inner.items) == Present(members)
    ensures var p := pos + be.decode(data[pos..]).length;
            var r := Extract(be, data, State(pos, None, 0));
            && r.final.pos == p
            && r.result == Extract(be, data, State(p, Some(members), 0)).result
  {
    var p := pos + be.decode(data[pos..]).length;
    ExtractUnfold(be, data, State(pos, None, 0));
    ExtractUnfold(be, data, State(p, Some(members), 0));
  }

  /** An envelope yields the certificates of its set and nothing else: the
      extraction stops after it, and no byte behind it is read. */
  lemma EnvelopeEndsExtraction(be: Backend, data: seq<byte>, pos: nat)
    requires ValidDecoder(be.decode) && pos < |data| && data[pos] != 0
    requires be.decode(data[pos..]).Decoded? && be.decode(data[pos..]).obj.Seq?
    requires IsSignedDataEnvelope(be.decode(data[pos..]).obj.items)
    ensures var d := be.decode(data[pos..]);
            var r := Extract(be, data, State(pos, None, 0));
            && r.final.pos == pos + d.length
            && r.result == EnvelopeYield(be, EnvelopeCertificates(be, d.obj.items))
  {
    var env := EnvelopeCertificates(be, be.decode(data[pos..]).obj.items);
    if env.Success? && env.value.Some? {
      EnvelopeWithSet(be, data, pos, env.value.value);
    } else {
      EnvelopeWithoutSet(be, data, pos);
    }
  }

  /** An envelope whose certificates field is present yields the
      certificates of that set. */
  lemma EnvelopeWithSet(be: Backend, data: seq<byte>, pos: nat, members: seq<Obj>)
    requires ValidDecoder(be.decode) && pos < |data| && data[pos] != 0
    requires be.decode(data[pos..]).Decoded? && be.decode(data[pos..]).obj.Seq?
    requires IsSignedDataEnvelope(be.decode(data[pos..]).obj.items)
    requires var items := be.decode(data[pos..]).obj.items;
             items[1].Tagged? && items[1].inner.Seq? &&
             be.signedDataCertificates(items[1].inner.items) == Present(members)
    ensures var r := Extract(be, data, State(pos, None, 0));
            && r.final.pos == pos + be.decode(data[pos..]).length
            && r.result == CertificatesFrom(be, members)
  {
    EnvelopeInstallsSet(be, data, pos, members);
    PendingSetYields(be, data, pos + be.decode(data[pos..]).length, members, 0);
    assert members[0..] == members;
  }

  /** An envelope that cannot be unwrapped, or whose certificates field is
      absent, ends the extraction at once. */
  lemma EnvelopeWithoutSet(be: Backend, data: seq<byte>, pos: nat)
    requires ValidDecoder(be.decode) && pos < |data| && data[pos] != 0
    requires be.decode(data[pos..]).Decoded? && be.decode(data[pos..]).obj.Seq?
    requires IsSignedDataEnvelope(be.decode(data[pos..]).obj.items)
    requires var env := EnvelopeCertificates(be, be.decode(data[pos..]).obj.items);
             env.Failure? || env.value.None?
    ensures var d := be.decode(data[pos..]);
            var env := EnvelopeCertificates(be, d.obj.items);
            Extract(be, data, State(pos, None, 0)) ==
              Run(if env.Failure? then Failure(env.error) else Success([]), State(pos + d.length, None, 0))
  {
    ExtractUnfold(be, data, State(pos, None, 0));
  }

  /** A certificate sequence at an object boundary yields its certificate,
      and extraction goes on just after it. */
  lemma BareCertificateStep(be: Backend, data: seq<byte>, pos: nat, items: seq<Obj>)
    requires ValidDecoder(be.decode) && pos < |data| && data[pos] != 0
    requires be.decode(data[pos..]).Decoded? && be.decode(data[pos..]).obj == Seq(items)
    requires !IsSignedDataEnvelope(items) && be.isCertificateStructure(items)
    ensures var next := State(pos + be.decode(data[pos..]).length, None, 0);
            Extract(be, data, State(pos, None, 0)) == Prepend([Certificate(items)], Extract(be, data, next))
  {
    ExtractUnfold(be, data, State(pos, None, 0));
  }

  /** N back-to-back certificate sequences yield N certificates in stream
      order, followed by whatever the rest of the buffer yields. */
  lemma {:induction false} BareCertificatesInOrder(be: Backend, data: seq<byte>, pos: nat, structures: seq<seq<Obj>>, end: nat)
    requires ValidDecoder(be.decode) && BareCertificates(be, data, pos, structures, end)
    ensures pos <= end <= |data|
    ensures Extract(be, data, State(pos, None, 0)) ==
              Prepend(Certificates(structures), Extract(be, data, State(end, None, 0)))
    decreases |structures|
  {
    if structures == [] {
      var rest := Extract(be, data, State(end, None, 0));
      assert rest.result.Success? ==> [] + rest.result.value == rest.result.value;
    } else {
      var n := be.decode(data[pos..]).length;
      BareCertificateStep(be, data, pos, structures[0]);
      BareCertificatesInOrder(be, data, pos + n, structures[1..], end);
      PrependPrepend([Certificate(structures[0])], Certificates(structures[1..]),
                     Extract(be, data, State(end, None, 0)));
      CertificatesCons(structures);
    }
  }

  /** A buffer that is nothing but certificate sequences yields exactly one
      certificate per sequence, in order. */
  lemma ConcatenatedCertificates(be: Backend, data: seq<byte>, structures: seq<seq<Obj>>)
    requires ValidDecoder(be.decode) && BareCertificates(be, data, 0, structures, |data|)
    ensures ExtractAll(be, data).result == Success(Certificates(structures))
  {
    BareCertificatesInOrder(be, data, 0, structures, |data|);
    EndOfInputStops(be, data, |data|);
    assert Certificates(structures) + [] == Certificates(structures);
  }

  /** Certificate sequences followed by an envelope yield those certificates
      and then the envelope's; the envelope is where extraction stops. */
  lemma EnvelopeAfterCertificates(be: Backend, data: seq<byte>, structures: seq<seq<Obj>>, end: nat, members: seq<Obj>)
    requires ValidDecoder(be.decode) && BareCertificates(be, data, 0, structures, end)
    requires end < |data| && data[end] != 0
    requires be.decode(data[end..]).Decoded? && be.decode(data[end..]).obj.Seq?
    requires IsSignedDataEnvelope(be.decode(data[end..]).obj.items)
    requires var items := be.decode(data[end..]).obj.items;
             items[1].Tagged? && items[1].inner.Seq? &&
             be.signedDataCertificates(items[1].inner.items) == Present(members)
    ensures var r := ExtractAll(be, data);
            && r.final.pos == end + be.decode(data[end..]).length
            && r.result == (var env := CertificatesFrom(be, members);
                            if env.Success? then Success(Certificates(structures) + env.value) else env)
  {
    BareCertificatesInOrder(be, data, 0, structures, end);
    EnvelopeEndsExtraction(be, data, end);
  }

  /** Any read that throws after any number of certificates fails the whole
      extraction with that read's error: no partial list is returned. This
      covers bytes the decoder rejects, a top-level object that is not a
      sequence, a sequence the library rejects as a certificate, and an
      envelope that cannot be unwrapped. */
  lemma ErrorDiscardsEarlierCertificates(be: Backend, data: seq<byte>, structures: seq<seq<Obj>>, end: nat)
    requires ValidDecoder(be.decode) && BareCertificates(be, data, 0, structures, end)
    requires end <= |data| && ReadStep(be, data, State(end, None, 0)).read.Thrown?
    ensures ExtractAll(be, data).result == Failure(ReadStep(be, data, State(end, None, 0)).read.error)
  {
    BareCertificatesInOrder(be, data, 0, structures, end);
    ExtractUnfold(be, data, State(end, None, 0));
  }
}
