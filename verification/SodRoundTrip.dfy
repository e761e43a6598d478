/** Reading an encoded document security object returns exactly the facts that were encoded. */
module SodRoundTrip {
  import opened Bytes
  import opened Wrappers
  import opened Der
  import opened Walk
  import opened Cms
  import opened Sod
  import Oid
  import Text

  // ----- one value

  /** A value at `pos` is read, and stepped over, whole. */
  lemma ValueAt(buf: Buffer, pos: nat, v: Value)
    requires At(buf, pos, v.Encoded())
    ensures Header(buf, pos) == Done(HeaderOf(pos, v.tag, v.content))
    ensures At(buf, HeaderOf(pos, v.tag, v.content).contentStart, v.content)
    ensures HeaderOf(pos, v.tag, v.content).End() == pos + |v.Encoded()| <= |buf|
    ensures Advance(HeaderOf(pos, v.tag, v.content)) == Done(pos + |v.Encoded()|)
  {
    ParseInvertsEncode(buf, pos, v.tag, v.content);
  }

  lemma ContentAt(buf: Buffer, pos: nat, v: Value)
    requires At(buf, pos, v.Encoded())
    ensures Content(buf, HeaderOf(pos, v.tag, v.content)) == Done(v.content)
  {
    ParseInvertsEncode(buf, pos, v.tag, v.content);
    AtSlice(buf, HeaderOf(pos, v.tag, v.content).contentStart, v.content);
  }

  /** The first of several values stands where they start; the others follow it. */
  lemma FirstAt(buf: Buffer, pos: nat, values: seq<Value>)
    requires values != [] && At(buf, pos, EncodeAll(values))
    ensures At(buf, pos, values[0].Encoded())
    ensures At(buf, pos + |values[0].Encoded()|, EncodeAll(values[1..]))
    ensures |EncodeAll(values)| == |values[0].Encoded()| + |EncodeAll(values[1..])|
  {
    AtConcat(buf, pos, values[0].Encoded(), EncodeAll(values[1..]));
  }

  lemma EncodedNotEmpty(v: Value)
    ensures |v.Encoded()| > 0
  {
  }

  /** What the reader prints for an identifier: itself, unless an arc is too large. */
  function Printed(oid: ObjectId): string {
    Text.Dotted(Oid.Reported(oid))
  }

  lemma OidAtEncoding(buf: Buffer, pos: nat, oid: ObjectId)
    requires At(buf, pos, Value(0x06, Oid.EncodeOid(oid)).Encoded())
    ensures OidAt(buf, pos) == Done(Printed(oid))
  {
    var v := Value(0x06, Oid.EncodeOid(oid));
    ValueAt(buf, pos, v);
    ContentAt(buf, pos, v);
    Oid.DecodesAsReported(oid);
  }

  /** The identifier of an algorithm whose SEQUENCE starts at `pos`. */
  lemma AlgorithmOid(buf: Buffer, pos: nat, algorithm: AlgorithmIdentifier)
    requires At(buf, pos, algorithm.AsValue().Encoded())
    ensures AlgorithmAt(buf, pos) == Done(Printed(algorithm.oid))
    ensures OidAt(buf, HeaderOf(pos, 0x30, algorithm.AsValue().content).contentStart) == Done(Printed(algorithm.oid))
  {
    ValueAt(buf, pos, algorithm.AsValue());
    var start := HeaderOf(pos, 0x30, algorithm.AsValue().content).contentStart;
    AtConcat(buf, start, Der.Encode(0x06, Oid.EncodeOid(algorithm.oid)), algorithm.parameters);
    OidAtEncoding(buf, start, algorithm.oid);
  }

  // ----- SignerInfo

  /** Walking over leading fields that are not the wanted SEQUENCE. */
  lemma {:induction false} SignerWalkSkips(buf: Buffer, pos: nat, end: nat, index: nat, head: seq<Value>, tail: seq<Value>)
    returns (next: nat)
    requires At(buf, pos, EncodeAll(head + tail)) && end == pos + |EncodeAll(head + tail)|
    requires forall i :: 0 <= i < |head| && index + i >= 3 ==> head[i].tag != 0x30
    ensures At(buf, next, EncodeAll(tail)) && end == next + |EncodeAll(tail)|
    ensures SignerWalk(buf, pos, end, index) == SignerWalk(buf, next, end, index + |head|)
    decreases |head|
  {
    hide Der.Encode, Der.EncodeLength, EncodeAll, At, SignerWalk;
    if head == [] {
      assert head + tail == tail;
      next := pos;
    } else {
      var values := head + tail;
      assert values[1..] == head[1..] + tail;
      SignerWalkStep(buf, pos, end, index, values);
      next := SignerWalkSkips(buf, pos + |values[0].Encoded()|, end, index + 1, head[1..], tail);
    }
  }

  lemma SignerWalkUnfolds(buf: Buffer, pos: nat, end: nat, index: nat, tlv: Tlv, next: nat)
    requires pos < end && Header(buf, pos) == Done(tlv) && Advance(tlv) == Done(next)
    requires index >= 3 ==> tlv.tag != 0x30
    ensures SignerWalk(buf, pos, end, index) == SignerWalk(buf, next, end, index + 1)
  {
  }

  lemma SignerWalkStep(buf: Buffer, pos: nat, end: nat, index: nat, values: seq<Value>)
    requires values != [] && (index >= 3 ==> values[0].tag != 0x30)
    requires At(buf, pos, EncodeAll(values)) && end == pos + |EncodeAll(values)|
    ensures var next := pos + |values[0].Encoded()|;
            && At(buf, next, EncodeAll(values[1..])) && end == next + |EncodeAll(values[1..])|
            && SignerWalk(buf, pos, end, index) == SignerWalk(buf, next, end, index + 1)
  {
    EncodedNotEmpty(values[0]);
    hide Der.Encode, Der.EncodeLength, EncodeAll, At, SignerWalk, Header, Advance;
    FirstAt(buf, pos, values);
    ValueAt(buf, pos, values[0]);
    var first := values[0];
    SignerWalkUnfolds(buf, pos, end, index, HeaderOf(pos, first.tag, first.content), pos + |first.Encoded()|);
  }

  lemma SignerOid(buf: Buffer, pos: nat, signer: SignerInfo)
    requires At(buf, pos, signer.AsValue().Encoded())
    ensures var h := HeaderOf(pos, 0x30, signer.AsValue().content);
            SignerAlgorithm(buf, h.contentStart, h.contentLength) == Done(Printed(signer.signatureAlgorithm.oid))
  {
    hide Der.Encode, Der.EncodeLength, EncodeAll, At, SignerWalk, Header, Printed, SignerInfo.Head, SignerInfo.Tail;
    ValueAt(buf, pos, signer.AsValue());
    var h := HeaderOf(pos, 0x30, signer.AsValue().content);
    SignerFieldsOid(buf, h.contentStart, h.End(), signer);
  }

  lemma SignerFieldsOid(buf: Buffer, start: nat, end: nat, signer: SignerInfo)
    requires At(buf, start, EncodeAll(signer.Head() + signer.Tail()))
    requires end == start + |EncodeAll(signer.Head() + signer.Tail())|
    ensures SignerWalk(buf, start, end, 0) == Done(Printed(signer.signatureAlgorithm.oid))
  {
    hide Der.Encode, Der.EncodeLength, EncodeAll, At, SignerWalk;
    var head, tail := signer.Head(), signer.Tail();
    var next := SignerWalkSkips(buf, start, end, 0, head, tail);
    SignerWalkFinds(buf, next, end, |head|, signer.signatureAlgorithm, tail);
  }

  lemma SignerWalkFinds(buf: Buffer, pos: nat, end: nat, index: nat, algorithm: AlgorithmIdentifier, tail: seq<Value>)
    requires index >= 3
    requires tail != [] && tail[0] == algorithm.AsValue()
    requires At(buf, pos, EncodeAll(tail)) && end == pos + |EncodeAll(tail)|
    ensures SignerWalk(buf, pos, end, index) == Done(Printed(algorithm.oid))
  {
    FirstAt(buf, pos, tail);
    EncodedNotEmpty(tail[0]);
    ValueAt(buf, pos, tail[0]);
    AlgorithmOid(buf, pos, algorithm);
  }

  // ----- the LDS security object and the eContent

  lemma LdsOid(econtent: Buffer, lds: LdsSecurityObject)
    requires econtent == lds.Encoded()
    ensures LdsHashOid(econtent) == Done(Printed(lds.hashAlgorithm.oid))
  {
    hide Der.Encode, Der.EncodeLength, At, EncodeAll;
    var root := Value(0x30, EncodeAll(lds.Fields()));
    WholeAt(econtent);
    ValueAt(econtent, 0, root);
    LdsFieldsOid(econtent, HeaderOf(0, 0x30, root.content).contentStart, lds);
  }

  lemma WholeAt(buf: seq<byte>)
    ensures At(buf, 0, buf)
  {
  }

  lemma LdsFieldsOid(econtent: Buffer, start: nat, lds: LdsSecurityObject)
    requires At(econtent, start, EncodeAll(lds.Fields()))
    ensures Header(econtent, start).Done? && Advance(Header(econtent, start).value).Done?
    ensures AlgorithmAt(econtent, Advance(Header(econtent, start).value).value) == Done(Printed(lds.hashAlgorithm.oid))
  {
    hide Der.Encode, Der.EncodeLength, At, EncodeAll, AlgorithmAt, Header, Advance, Printed;
    var fields := lds.Fields();
    FirstAt(econtent, start, fields);
    ValueAt(econtent, start, fields[0]);
    var next := start + |fields[0].Encoded()|;
    FirstAt(econtent, next, fields[1..]);
    AlgorithmOid(econtent, next, lds.hashAlgorithm);
  }

  /** The two fields of an EncapsulatedContentInfo or a ContentInfo: the second one is found. */
  lemma ContextFound(buf: Buffer, pos: nat, end: nat, first: Value, second: Value)
    requires At(buf, pos, EncodeAll([first, second])) && end == pos + |EncodeAll([first, second])|
    requires first.tag != 0xa0 && second.tag == 0xa0
    ensures var next := pos + |first.Encoded()|;
            At(buf, next, second.Encoded()) && FindContext(buf, pos, end) == Done(HeaderOf(next, 0xa0, second.content))
  {
    var next := pos + |first.Encoded()|;
    FirstAt(buf, pos, [first, second]);
    assert [first, second][1..] == [second];
    FirstAt(buf, next, [second]);
    EncodedNotEmpty(first);
    EncodedNotEmpty(second);
    ValueAt(buf, pos, first);
    ValueAt(buf, next, second);
  }

  /** The content of the OCTET STRING inside the second field. */
  lemma OctetsFound(buf: Buffer, pos: nat, first: Value, octets: Value) returns (context: Tlv, inner: Tlv)
    requires At(buf, pos, EncodeAll([first, Value(0xa0, octets.Encoded())]))
    requires first.tag != 0xa0
    ensures FindContext(buf, pos, pos + |EncodeAll([first, Value(0xa0, octets.Encoded())])|) == Done(context)
    ensures Header(buf, context.contentStart) == Done(inner)
    ensures inner.contentStart <= |buf| && |octets.content| <= |buf|
    ensures Content(buf, inner) == Done(octets.content)
  {
    hide Der.EncodeLength, EncodeAll, At, FindContext;
    var second := Value(0xa0, octets.Encoded());
    ContextFound(buf, pos, pos + |EncodeAll([first, second])|, first, second);
    var next := pos + |first.Encoded()|;
    ValueAt(buf, next, second);
    context := HeaderOf(next, 0xa0, second.content);
    ValueAt(buf, context.contentStart, octets);
    ContentAt(buf, context.contentStart, octets);
    inner := HeaderOf(context.contentStart, octets.tag, octets.content);
  }

  lemma EContentSteps(buf: Buffer, start: nat, len: nat, context: Tlv, inner: Tlv, bytes: Buffer, hashOid: string)
    requires start + len < WORD && FindContext(buf, start, start + len) == Done(context)
    requires Header(buf, context.contentStart) == Done(inner) && inner.contentStart <= |buf|
    requires Content(buf, inner) == Done(bytes) && LdsHashOid(bytes) == Done(hashOid)
    ensures EContentInfo(buf, start, len) == Done(EContent(hashOid, bytes))
  {
    hide Header, Content, LdsHashOid, FindContext;
  }

  lemma EContentFound(buf: Buffer, pos: nat, data: SignedData)
    requires At(buf, pos, data.EncapContentInfo().Encoded())
    ensures var h := HeaderOf(pos, 0x30, data.EncapContentInfo().content);
            EContentInfo(buf, h.contentStart, h.contentLength)
            == Done(EContent(Printed(data.eContent.hashAlgorithm.oid), data.eContent.Encoded()))
  {
    hide Der.Encode, Der.EncodeLength, EncodeAll, At, FindContext, LdsHashOid, Oid.EncodeOid,
         EContentInfo, Content, Header;
    var first := Value(0x06, Oid.EncodeOid(data.eContentType));
    var octets := Value(0x04, data.eContent.Encoded());
    ValueAt(buf, pos, data.EncapContentInfo());
    var h := HeaderOf(pos, 0x30, data.EncapContentInfo().content);
    var context, inner := OctetsFound(buf, h.contentStart, first, octets);
    LdsOid(data.eContent.Encoded(), data.eContent);
    EContentSteps(buf, h.contentStart, h.contentLength, context, inner, octets.content,
      Printed(data.eContent.hashAlgorithm.oid));
  }

  // ----- SignedData

  /** One round of the SignedData walk over the first of several fields. */
  lemma WalkStep(buf: Buffer, pos: nat, end: nat, index: nat, found: Found, values: seq<Value>, x509: CertificateParser)
    requires values != []
    requires At(buf, pos, EncodeAll(values)) && end == pos + |EncodeAll(values)|
    ensures At(buf, pos, values[0].Encoded())
    ensures var next := pos + |values[0].Encoded()|;
            At(buf, next, EncodeAll(values[1..])) && end == next + |EncodeAll(values[1..])|
    ensures var visited := Visit(buf, HeaderOf(pos, values[0].tag, values[0].content), index, found, x509);
            SignedDataWalk(buf, pos, end, index, found, x509)
            == if visited.Done?
               then SignedDataWalk(buf, pos + |values[0].Encoded()|, end, index + 1, visited.value, x509)
               else visited
  {
    hide Der.EncodeLength, EncodeAll, At, Visit;
    FirstAt(buf, pos, values);
    EncodedNotEmpty(values[0]);
    ValueAt(buf, pos, values[0]);
  }

  /**
   * The identifier reported as the digest algorithm.  The reader does not look whether the SET is
   * empty: it reads on into the next field, whose first identifier is the content type.
   */
  ghost function ReportedDigest(data: SignedData): ObjectId {
    if data.digestAlgorithms == [] then data.eContentType else data.digestAlgorithms[0].oid
  }

  lemma DigestVisited(buf: Buffer, pos: nat, data: SignedData, found: Found, x509: CertificateParser)
    requires At(buf, pos, data.DigestSet().Encoded())
    requires At(buf, pos + |data.DigestSet().Encoded()|, data.EncapContentInfo().Encoded())
    ensures Visit(buf, HeaderOf(pos, 0x31, data.DigestSet().content), 1, found, x509)
         == Done(found.(digest := Some(Printed(ReportedDigest(data)))))
  {
    hide EncodeAll, At, Der.Encode, Der.EncodeLength, Printed, AlgorithmAt, Oid.EncodeOid;
    ValueAt(buf, pos, data.DigestSet());
    var start := HeaderOf(pos, 0x31, data.DigestSet().content).contentStart;
    if data.digestAlgorithms == [] {
      EmptySet(data);
      ContentTypeOid(buf, start, data);
    } else {
      var algorithms := seq(|data.digestAlgorithms|,
        i requires 0 <= i < |data.digestAlgorithms| => data.digestAlgorithms[i].AsValue());
      FirstAt(buf, start, algorithms);
      AlgorithmOid(buf, start, data.digestAlgorithms[0]);
    }
  }

  lemma EmptySet(data: SignedData)
    requires data.digestAlgorithms == []
    ensures data.DigestSet().content == []
  {
  }

  lemma ContentTypeOid(buf: Buffer, pos: nat, data: SignedData)
    requires At(buf, pos, data.EncapContentInfo().Encoded())
    ensures AlgorithmAt(buf, pos) == Done(Printed(data.eContentType))
  {
    hide EncodeAll, At, Der.Encode, Der.EncodeLength, Printed, Oid.EncodeOid, OidAt;
    var fields := [Value(0x06, Oid.EncodeOid(data.eContentType)), Value(0xa0, Der.Encode(0x04, data.eContent.Encoded()))];
    ValueAt(buf, pos, data.EncapContentInfo());
    var start := HeaderOf(pos, 0x30, data.EncapContentInfo().content).contentStart;
    FirstAt(buf, start, fields);
    OidAtEncoding(buf, start, data.eContentType);
  }

  lemma SignerVisited(buf: Buffer, pos: nat, data: SignedData, index: nat, found: Found, x509: CertificateParser)
    requires data.signerInfos != [] && index >= 4
    requires At(buf, pos, data.SignerSet().Encoded())
    ensures Visit(buf, HeaderOf(pos, 0x31, data.SignerSet().content), index, found, x509)
         == Done(found.(signer := Some(Printed(data.signerInfos[0].signatureAlgorithm.oid))))
  {
    var signers := seq(|data.signerInfos|,
      i requires 0 <= i < |data.signerInfos| => data.signerInfos[i].AsValue());
    ValueAt(buf, pos, data.SignerSet());
    var start := HeaderOf(pos, 0x31, data.SignerSet().content).contentStart;
    FirstAt(buf, start, signers);
    ValueAt(buf, start, signers[0]);
    SignerOid(buf, start, data.signerInfos[0]);
  }

  /** The certificate slot receives the first certificate's whole encoding, or the next field's. */
  lemma CertificateVisited(buf: Buffer, pos: nat, choices: seq<Value>, rest: seq<Value>, found: Found, x509: CertificateParser)
    requires rest != []
    requires At(buf, pos, EncodeAll([Value(0xa0, EncodeAll(choices))] + rest))
    ensures var der := (choices + rest)[0].Encoded();
            Visit(buf, HeaderOf(pos, 0xa0, EncodeAll(choices)), 3, found, x509)
            == match x509(der)
               case None => Failed
               case Some(oid) => Done(found.(certificate := Some(Certificate(der, oid))))
  {
    hide Der.Encode, Der.EncodeLength, EncodeAll, At;
    var certificates := Value(0xa0, EncodeAll(choices));
    var values := [certificates] + rest;
    FirstAt(buf, pos, values);
    assert values[1..] == rest;
    ValueAt(buf, pos, certificates);
    var start := HeaderOf(pos, 0xa0, EncodeAll(choices)).contentStart;
    var first := (choices + rest)[0];
    if choices == [] {
      NothingEncoded();
      FirstAt(buf, start, rest);
    } else {
      FirstAt(buf, start, choices);
    }
    ValueAt(buf, start, first);
    AtSlice(buf, start, first.Encoded());
  }

  lemma NothingEncoded()
    ensures EncodeAll([]) == []
  {
  }

  lemma EContentVisited(buf: Buffer, pos: nat, data: SignedData, found: Found, x509: CertificateParser)
    requires At(buf, pos, data.EncapContentInfo().Encoded())
    ensures Visit(buf, HeaderOf(pos, 0x30, data.EncapContentInfo().content), 2, found, x509)
         == Done(found.(econtent := Some(EContent(Printed(data.eContent.hashAlgorithm.oid), data.eContent.Encoded()))))
  {
    hide EContentInfo, Der.Encode, Der.EncodeLength, At, EncodeAll;
    EContentFound(buf, pos, data);
  }

  lemma NotVisited(buf: Buffer, tlv: Tlv, index: nat, found: Found, x509: CertificateParser)
    requires index == 0 || (index >= 3 && tlv.tag != 0xa0 && (index >= 4 ==> tlv.tag != 0x31))
    ensures Visit(buf, tlv, index, found, x509) == Done(found)
  {
  }

  /** The objects the theorem is about: without a signer the reader takes what stands behind the file. */
  ghost predicate Readable(data: SignedData) {
    data.signerInfos != []
  }

  /** The optional fields and the signers: what follows the certificates. */
  ghost function Last(data: SignedData): seq<Value> {
    Optional(0xa1, data.crls) + [data.SignerSet()]
  }

  /** The certificate that the reader takes from an empty set is the field behind it. */
  ghost function ReportedCertificate(data: SignedData, choices: seq<Value>): seq<byte> {
    (choices + Last(data))[0].Encoded()
  }

  /** What the reader has to answer, without reading a byte. */
  ghost function Expected(data: SignedData, x509: CertificateParser): Outcome<SodEnvelope>
    requires Readable(data)
  {
    match data.certificates
    case None => Failed
    case Some(choices) =>
      var der := ReportedCertificate(data, choices);
      match x509(der)
      case None => Failed
      case Some(oid) =>
        Done(SodEnvelope(
          der, oid,
          Printed(ReportedDigest(data)),
          Printed(data.signerInfos[0].signatureAlgorithm.oid),
          Printed(data.eContent.hashAlgorithm.oid),
          data.eContent.Encoded()))
  }

  /** The first three fields: version, digest algorithms, encapsulated content. */
  lemma FirstThree(buf: Buffer, pos: nat, end: nat, data: SignedData, rest: seq<Value>, x509: CertificateParser)
    returns (next: nat)
    requires Readable(data)
    requires data.Fields() == [Value(0x02, data.version), data.DigestSet(), data.EncapContentInfo()] + rest
    requires At(buf, pos, EncodeAll(data.Fields())) && end == pos + |EncodeAll(data.Fields())|
    ensures At(buf, next, EncodeAll(rest)) && end == next + |EncodeAll(rest)|
    ensures SignedDataWalk(buf, pos, end, 0, NOTHING, x509) == SignedDataWalk(buf, next, end, 3, AfterThree(data), x509)
  {
    hide SignedDataWalk, Visit, EncodeAll, At, Der.Encode, Der.EncodeLength, Printed;
    var values := data.Fields();
    var found1 := NOTHING.(digest := Some(Printed(ReportedDigest(data))));
    WalkStep(buf, pos, end, 0, NOTHING, values, x509);
    NotVisited(buf, HeaderOf(pos, 0x02, data.version), 0, NOTHING, x509);
    var p1 := pos + |values[0].Encoded()|;
    WalkStep(buf, p1, end, 1, NOTHING, values[1..], x509);
    var p2 := p1 + |values[1].Encoded()|;
    WalkStep(buf, p2, end, 2, found1, values[1..][1..], x509);
    DigestVisited(buf, p1, data, NOTHING, x509);
    EContentVisited(buf, p2, data, found1, x509);
    next := p2 + |values[2].Encoded()|;
    assert values[1..][1..][1..] == rest;
  }

  ghost function AfterThree(data: SignedData): Found
    requires Readable(data)
  {
    Found(
      Some(Printed(ReportedDigest(data))), None, None,
      Some(EContent(Printed(data.eContent.hashAlgorithm.oid), data.eContent.Encoded())))
  }

  // ----- the theorem

  /** The optional fields and the signers: what follows the first three fields. */
  lemma LastFields(buf: Buffer, pos: nat, end: nat, data: SignedData, x509: CertificateParser)
    requires Readable(data)
    requires At(buf, pos, EncodeAll(Optional(0xa1, data.crls) + [data.SignerSet()]))
    requires end == pos + |EncodeAll(Optional(0xa1, data.crls) + [data.SignerSet()])|
    ensures forall found :: SignedDataWalk(buf, pos, end, 4, found, x509)
                            == Done(found.(signer := Some(Printed(data.signerInfos[0].signatureAlgorithm.oid))))
  {
    forall found: Found
      ensures SignedDataWalk(buf, pos, end, 4, found, x509)
              == Done(found.(signer := Some(Printed(data.signerInfos[0].signatureAlgorithm.oid))))
    {
      LastFieldsFrom(buf, pos, end, data, found, x509);
    }
  }

  lemma LastFieldsFrom(buf: Buffer, pos: nat, end: nat, data: SignedData, found: Found, x509: CertificateParser)
    requires Readable(data)
    requires At(buf, pos, EncodeAll(Optional(0xa1, data.crls) + [data.SignerSet()]))
    requires end == pos + |EncodeAll(Optional(0xa1, data.crls) + [data.SignerSet()])|
    ensures SignedDataWalk(buf, pos, end, 4, found, x509)
            == Done(found.(signer := Some(Printed(data.signerInfos[0].signatureAlgorithm.oid))))
  {
    hide SignedDataWalk, Visit, EncodeAll, At, Der.Encode, Der.EncodeLength, Printed;
    var last := [data.SignerSet()];
    match data.crls
    case None =>
      assert Optional(0xa1, data.crls) + last == last;
      LastSigner(buf, pos, end, 4, data, found, x509);
    case Some(crls) =>
      var values := [Value(0xa1, crls)] + last;
      WalkStep(buf, pos, end, 4, found, values, x509);
      NotVisited(buf, HeaderOf(pos, 0xa1, crls), 4, found, x509);
      assert values[1..] == last;
      LastSigner(buf, pos + |values[0].Encoded()|, end, 5, data, found, x509);
  }

  lemma LastSigner(buf: Buffer, pos: nat, end: nat, index: nat, data: SignedData, found: Found, x509: CertificateParser)
    requires Readable(data) && index >= 4
    requires At(buf, pos, EncodeAll([data.SignerSet()])) && end == pos + |EncodeAll([data.SignerSet()])|
    ensures SignedDataWalk(buf, pos, end, index, found, x509)
            == Done(found.(signer := Some(Printed(data.signerInfos[0].signatureAlgorithm.oid))))
  {
    hide Visit, At, Der.Encode, Der.EncodeLength, Printed;
    WalkStep(buf, pos, end, index, found, [data.SignerSet()], x509);
    SignerVisited(buf, pos, data, index, found, x509);
  }

  /** Without certificates no later field fills their slot. */
  lemma NoCertificateFound(buf: Buffer, pos: nat, end: nat, data: SignedData, x509: CertificateParser)
    requires Readable(data) && data.certificates.None?
    requires At(buf, pos, EncodeAll(Optional(0xa1, data.crls) + [data.SignerSet()]))
    requires end == pos + |EncodeAll(Optional(0xa1, data.crls) + [data.SignerSet()])|
    ensures var r := SignedDataWalk(buf, pos, end, 3, AfterThree(data), x509); r.Done? && r.value.certificate.None?
  {
    hide SignedDataWalk, Visit, EncodeAll, At, Der.Encode, Der.EncodeLength, Printed;
    var last := [data.SignerSet()];
    match data.crls
    case None =>
      assert Optional(0xa1, data.crls) + last == last;
      WalkStep(buf, pos, end, 3, AfterThree(data), last, x509);
      NotVisited(buf, HeaderOf(pos, 0x31, data.SignerSet().content), 3, AfterThree(data), x509);
      assert last[1..] == [];
      WalkEnds(buf, pos + |last[0].Encoded()|, end, 4, AfterThree(data), x509);
    case Some(crls) =>
      var values := [Value(0xa1, crls)] + last;
      WalkStep(buf, pos, end, 3, AfterThree(data), values, x509);
      NotVisited(buf, HeaderOf(pos, 0xa1, crls), 3, AfterThree(data), x509);
      assert values[1..] == last;
      LastSigner(buf, pos + |values[0].Encoded()|, end, 4, data, AfterThree(data), x509);
  }

  lemma WalkEnds(buf: Buffer, pos: nat, end: nat, index: nat, found: Found, x509: CertificateParser)
    requires end == pos + |EncodeAll([])|
    ensures SignedDataWalk(buf, pos, end, index, found, x509) == Done(found)
  {
  }

  lemma WithCertificates(buf: Buffer, pos: nat, end: nat, data: SignedData, choices: seq<Value>, x509: CertificateParser)
    requires Readable(data) && data.certificates == Some(choices)
    requires At(buf, pos, EncodeAll([Value(0xa0, EncodeAll(choices))] + (Optional(0xa1, data.crls) + [data.SignerSet()])))
    requires end == pos + |EncodeAll([Value(0xa0, EncodeAll(choices))] + (Optional(0xa1, data.crls) + [data.SignerSet()]))|
    ensures SignedDataWalk(buf, pos, end, 3, AfterThree(data), x509)
            == match x509(ReportedCertificate(data, choices))
               case None => Failed
               case Some(oid) =>
                 Done(AfterThree(data).(
                   certificate := Some(Certificate(ReportedCertificate(data, choices), oid)),
                   signer := Some(Printed(data.signerInfos[0].signatureAlgorithm.oid))))
  {
    hide SignedDataWalk, Visit, EncodeAll, At, Der.Encode, Der.EncodeLength, Printed;
    var last := Optional(0xa1, data.crls) + [data.SignerSet()];
    var values := [Value(0xa0, EncodeAll(choices))] + last;
    WalkStep(buf, pos, end, 3, AfterThree(data), values, x509);
    CertificateVisited(buf, pos, choices, last, AfterThree(data), x509);
    assert values[1..] == last;
    LastFields(buf, pos + |values[0].Encoded()|, end, data, x509);
  }

  lemma ParseSignedDataInverts(buf: Buffer, pos: nat, data: SignedData, x509: CertificateParser)
    requires Readable(data)
    requires At(buf, pos, EncodeAll(data.Fields()))
    ensures ParseSignedData(buf, pos, |EncodeAll(data.Fields())|, x509) == Expected(data, x509)
  {
    hide SignedDataWalk, EncodeAll, Der.Encode, Der.EncodeLength, Printed;
    var end := pos + |EncodeAll(data.Fields())|;
    var last := Optional(0xa1, data.crls) + [data.SignerSet()];
    var rest := data.CertificateSet() + last;
    assert data.Fields() == [Value(0x02, data.version), data.DigestSet(), data.EncapContentInfo()] + rest;
    var next := FirstThree(buf, pos, end, data, rest, x509);
    match data.certificates
    case None =>
      assert rest == last;
      NoCertificateFound(buf, next, end, data, x509);
    case Some(choices) =>
      WithCertificates(buf, next, end, data, choices, x509);
  }

  lemma ContentInfoStartInverts(sod: Buffer, data: SignedData, wrapped: bool) returns (start: nat)
    requires At(sod, 0, EncodeSod(data, wrapped))
    ensures ContentInfoStart(sod) == Done(start)
    ensures At(sod, start, EncodeContentInfo(data))
  {
    hide EncodeContentInfo, Der.EncodeLength;
    FirstByte(sod, EncodeSod(data, wrapped));
    if wrapped {
      var v := Value(0x77, EncodeContentInfo(data));
      ValueAt(sod, 0, v);
      start := HeaderOf(0, v.tag, v.content).contentStart;
    } else {
      ContentInfoTag(data);
      start := 0;
    }
  }

  lemma FirstByte(buf: seq<byte>, part: seq<byte>)
    requires At(buf, 0, part)
    ensures part != [] ==> buf != [] && buf[0] == part[0]
  {
  }

  lemma ContentInfoTag(data: SignedData)
    ensures EncodeContentInfo(data) != [] && EncodeContentInfo(data)[0] == 0x30
  {
    hide Der.EncodeLength, EncodeAll;
  }

  /** From the ContentInfo down to the SignedData fields. */
  lemma SignedDataFound(sod: Buffer, start: nat, data: SignedData) returns (outer: Tlv, context: Tlv, inner: Tlv)
    requires At(sod, start, EncodeContentInfo(data))
    ensures Header(sod, start) == Done(outer) && Advance(outer) == Done(outer.End())
    ensures FindContext(sod, outer.contentStart, outer.End()) == Done(context)
    ensures Header(sod, context.contentStart) == Done(inner)
    ensures inner.contentLength == |EncodeAll(data.Fields())|
    ensures At(sod, inner.contentStart, EncodeAll(data.Fields()))
  {
    hide Der.Encode, Der.EncodeLength, EncodeAll, At, FindContext, Oid.EncodeOid;
    var first := Value(0x06, Oid.EncodeOid(ID_SIGNED_DATA));
    var signed := Value(0x30, EncodeAll(data.Fields()));
    var second := Value(0xa0, signed.Encoded());
    var info := Value(0x30, EncodeAll([first, second]));
    ValueAt(sod, start, info);
    outer := HeaderOf(start, 0x30, info.content);
    ContextFound(sod, outer.contentStart, outer.End(), first, second);
    var next := outer.contentStart + |first.Encoded()|;
    ValueAt(sod, next, second);
    context := HeaderOf(next, 0xa0, second.content);
    ValueAt(sod, context.contentStart, signed);
    inner := HeaderOf(context.contentStart, 0x30, signed.content);
  }

  /**
   * For every SignedData with a signer, wrapped or bare, with or without certificates, CRLs and
   * signed attributes, in either form of signer identifier, and with anything after it: the reader
   * returns exactly what was encoded, identifiers as it prints them, and reports an error exactly when
   * there are no certificates or the X.509 library rejects the first one.  For the first element of an
   * empty set it takes the field behind it.
   */
  lemma ParseSodInvertsEncode(sod: Buffer, data: SignedData, wrapped: bool, x509: CertificateParser)
    requires Readable(data)
    requires At(sod, 0, EncodeSod(data, wrapped))
    ensures ParseSod(sod, x509) == Expected(data, x509)
  {
    var start := ContentInfoStartInverts(sod, data, wrapped);
    hide Der.Encode, Der.EncodeLength, EncodeAll, At, FindContext, Oid.EncodeOid, EncodeContentInfo, EncodeSod,
         ContentInfoStart, ParseSignedData, Expected, Readable;
    var outer, context, inner := SignedDataFound(sod, start, data);
    ParseSignedDataInverts(sod, inner.contentStart, data, x509);
  }
}
