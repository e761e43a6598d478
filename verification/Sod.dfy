/** The passport SOD reader of `analysis.rs`: nested walks over one shared buffer. */
module Sod {
  import opened Bytes
  import opened Wrappers
  import opened Der
  import opened Walk
  import Oid

  datatype SodEnvelope = SodEnvelope(
    certificateDer: seq<byte>,
    certificateSignatureOid: string,
    digestOid: string,
    signerSignatureOid: string,
    ldsHashOid: string,
    econtent: seq<byte>)

  /** The X.509 library: the signature algorithm of a certificate it can parse. */
  type CertificateParser = seq<byte> -> Option<string>

  // ----- reading one value

  function Header(buf: Buffer, pos: nat): Outcome<Tlv> {
    match ParseTlv(buf, pos)
    case None => Failed
    case Some(tlv) => Done(tlv)
  }

  /** Slicing `buf[content_start..content_start + content_length]`: the sum comes first. */
  function Content(buf: Buffer, tlv: Tlv): Outcome<Buffer>
    requires tlv.contentStart <= |buf|
  {
    if tlv.End() >= WORD then Overflowed
    else if tlv.End() <= |buf| then Done(buf[tlv.contentStart..tlv.End()])
    else OutOfRange
  }

  function OidAt(buf: Buffer, pos: nat): Outcome<string> {
    var tlv :- Header(buf, pos);
    var bytes :- Content(buf, tlv);
    Done(Oid.ParseOidRaw(bytes))
  }

  /** The identifier inside the SEQUENCE that starts at `pos`. */
  function AlgorithmAt(buf: Buffer, pos: nat): Outcome<string> {
    var algorithm :- Header(buf, pos);
    OidAt(buf, algorithm.contentStart)
  }

  // ----- the walks

  /** The first sibling with the context tag [0]. */
  function FindContext(buf: Buffer, pos: nat, end: nat): Outcome<Tlv>
    decreases end - pos
  {
    if pos >= end then Failed
    else
      var tlv :- Header(buf, pos);
      if tlv.tag == 0xa0 then Done(tlv)
      else
        var next :- Advance(tlv);
        FindContext(buf, next, end)
  }

  function LdsHashOid(econtent: Buffer): Outcome<string> {
    var root :- Header(econtent, 0);
    var version :- Header(econtent, root.contentStart);
    var next :- Advance(version);
    AlgorithmAt(econtent, next)
  }

  datatype EContent = EContent(hashOid: string, bytes: seq<byte>)

  function EContentInfo(buf: Buffer, start: nat, len: nat): Outcome<EContent> {
    var end :- CheckedSum(start, len);
    var context :- FindContext(buf, start, end);
    var octets :- Header(buf, context.contentStart);
    var bytes :- Content(buf, octets);
    var hashOid :- LdsHashOid(bytes);
    Done(EContent(hashOid, bytes))
  }

  /** The identifier in the first SEQUENCE from the fourth field of a SignerInfo on. */
  function SignerWalk(buf: Buffer, pos: nat, end: nat, index: nat): Outcome<string>
    decreases end - pos
  {
    if pos >= end then Failed
    else
      var tlv :- Header(buf, pos);
      if tlv.tag == 0x30 && index >= 3 then OidAt(buf, tlv.contentStart)
      else
        var next :- Advance(tlv);
        SignerWalk(buf, next, end, index + 1)
  }

  function SignerAlgorithm(buf: Buffer, start: nat, len: nat): Outcome<string> {
    var end :- CheckedSum(start, len);
    SignerWalk(buf, start, end, 0)
  }

  datatype Certificate = Certificate(der: seq<byte>, signatureOid: string)

  /** The slots that the SignedData walk fills. */
  datatype Found = Found(
    digest: Option<string>,
    certificate: Option<Certificate>,
    signer: Option<string>,
    econtent: Option<EContent>)

  const NOTHING := Found(None, None, None, None)

  function CertificateAt(buf: Buffer, pos: nat, x509: CertificateParser): Outcome<Certificate> {
    var tlv :- Header(buf, pos);
    if tlv.End() >= WORD then Overflowed
    else if tlv.End() > |buf| then OutOfRange
    else
      var der := buf[tlv.offset..tlv.End()];
      match x509(der)
      case None => Failed
      case Some(oid) => Done(Certificate(der, oid))
  }

  /** What the SignedData loop does with the field numbered `index`. */
  function Visit(buf: Buffer, tlv: Tlv, index: nat, found: Found, x509: CertificateParser): Outcome<Found> {
    if index == 1 && tlv.tag == 0x31 then
      var oid :- AlgorithmAt(buf, tlv.contentStart);
      Done(found.(digest := Some(oid)))
    else if index == 2 && tlv.tag == 0x30 then
      var econtent :- EContentInfo(buf, tlv.contentStart, tlv.contentLength);
      Done(found.(econtent := Some(econtent)))
    else if index >= 3 && tlv.tag == 0xa0 then
      var certificate :- CertificateAt(buf, tlv.contentStart, x509);
      Done(found.(certificate := Some(certificate)))
    else if index >= 4 && tlv.tag == 0x31 then
      var signer :- Header(buf, tlv.contentStart);
      var oid :- SignerAlgorithm(buf, signer.contentStart, signer.contentLength);
      Done(found.(signer := Some(oid)))
    else Done(found)
  }

  function SignedDataWalk(buf: Buffer, pos: nat, end: nat, index: nat, found: Found, x509: CertificateParser): Outcome<Found>
    decreases end - pos
  {
    if pos >= end then Done(found)
    else
      var tlv :- Header(buf, pos);
      var found' :- Visit(buf, tlv, index, found, x509);
      var next :- Advance(tlv);
      SignedDataWalk(buf, next, end, index + 1, found', x509)
  }

  /** Every slot has to be filled. */
  function Finish(found: Found): Outcome<SodEnvelope> {
    match found
    case Found(Some(digest), Some(certificate), Some(signer), Some(econtent)) =>
      Done(SodEnvelope(certificate.der, certificate.signatureOid, digest, signer, econtent.hashOid, econtent.bytes))
    case _ => Failed
  }

  function ParseSignedData(buf: Buffer, start: nat, len: nat, x509: CertificateParser): Outcome<SodEnvelope> {
    var end :- CheckedSum(start, len);
    var found :- SignedDataWalk(buf, start, end, 0, NOTHING, x509);
    Finish(found)
  }

  /** Where the ContentInfo starts: after the header of a 0x77 wrapper, if there is one. */
  function ContentInfoStart(sod: Buffer): Outcome<nat> {
    if sod != [] && sod[0] == 0x77 then
      var wrapper :- Header(sod, 0);
      Done(wrapper.contentStart)
    else Done(0)
  }

  function ParseSod(sod: Buffer, x509: CertificateParser): Outcome<SodEnvelope> {
    var start :- ContentInfoStart(sod);
    var outer :- Header(sod, start);
    var end :- Advance(outer);
    var context :- FindContext(sod, outer.contentStart, end);
    var data :- Header(sod, context.contentStart);
    ParseSignedData(sod, data.contentStart, data.contentLength, x509)
  }

  // ----- the loops of the source

  method ReadHeader(buf: Buffer, pos: nat) returns (r: Outcome<Tlv>)
    ensures r == Header(buf, pos)
  {
    var tlv := ReadTlv(buf, pos);
    match tlv
    case None => return Failed;
    case Some(value) => return Done(value);
  }

  method ReadOidAt(buf: Buffer, pos: nat) returns (r: Outcome<string>)
    ensures r == OidAt(buf, pos)
  {
    var tlv :- ReadHeader(buf, pos);
    var bytes :- Content(buf, tlv);
    var text := Oid.ReadOid(bytes);
    return Done(text);
  }

  method ReadSignerAlgorithm(buf: Buffer, start: nat, len: nat) returns (r: Outcome<string>)
    ensures r == SignerAlgorithm(buf, start, len)
  {
    hide OidAt, ParseTlv;
    var pos := start;
    var end :- CheckedSum(start, len);
    var index := 0;
    while pos < end
      invariant SignerAlgorithm(buf, start, len) == SignerWalk(buf, pos, end, index)
    {
      var tlv :- ReadHeader(buf, pos);
      if tlv.tag == 0x30 && index >= 3 {
        r := ReadOidAt(buf, tlv.contentStart);
        return;
      }
      pos :- Advance(tlv);
      index := index + 1;
    }
    return Failed;
  }

  method ReadLdsHashOid(econtent: Buffer) returns (r: Outcome<string>)
    ensures r == LdsHashOid(econtent)
  {
    var root :- ReadHeader(econtent, 0);
    var version :- ReadHeader(econtent, root.contentStart);
    var next :- Advance(version);
    var algorithm :- ReadHeader(econtent, next);
    r := ReadOidAt(econtent, algorithm.contentStart);
  }

  method ReadEContentInfo(buf: Buffer, start: nat, len: nat) returns (r: Outcome<EContent>)
    ensures r == EContentInfo(buf, start, len)
  {
    var end :- CheckedSum(start, len);
    var pos := start;
    var octets: Option<Buffer> := None;
    while pos < end
      invariant FindContext(buf, start, end) == FindContext(buf, pos, end)
      invariant octets == None
    {
      var tlv :- ReadHeader(buf, pos);
      if tlv.tag == 0xa0 {
        var octet :- ReadHeader(buf, tlv.contentStart);
        var bytes :- Content(buf, octet);
        octets := Some(bytes);
        break;
      }
      pos :- Advance(tlv);
    }
    if octets.None? {
      return Failed;
    }
    var hashOid :- ReadLdsHashOid(octets.value);
    return Done(EContent(hashOid, octets.value));
  }

  /** The body of the SignedData loop. */
  method VisitField(buf: Buffer, tlv: Tlv, index: nat, found: Found, x509: CertificateParser) returns (r: Outcome<Found>)
    ensures r == Visit(buf, tlv, index, found, x509)
  {
    var found := found;
    if index == 1 && tlv.tag == 0x31 {
      var algorithm :- ReadHeader(buf, tlv.contentStart);
      var oid :- ReadOidAt(buf, algorithm.contentStart);
      found := found.(digest := Some(oid));
    }
    if index == 2 && tlv.tag == 0x30 {
      var econtent :- ReadEContentInfo(buf, tlv.contentStart, tlv.contentLength);
      found := found.(econtent := Some(econtent));
    }
    if tlv.tag == 0xa0 && index >= 3 {
      var certificate :- CertificateAt(buf, tlv.contentStart, x509);
      found := found.(certificate := Some(certificate));
    }
    if tlv.tag == 0x31 && index >= 4 {
      var signer :- ReadHeader(buf, tlv.contentStart);
      var oid :- ReadSignerAlgorithm(buf, signer.contentStart, signer.contentLength);
      found := found.(signer := Some(oid));
    }
    return Done(found);
  }

  method ReadSignedData(buf: Buffer, start: nat, len: nat, x509: CertificateParser) returns (r: Outcome<SodEnvelope>)
    ensures r == ParseSignedData(buf, start, len, x509)
  {
    var pos := start;
    var end :- CheckedSum(start, len);
    var index := 0;
    var found := NOTHING;
    while pos < end
      invariant SignedDataWalk(buf, start, end, 0, NOTHING, x509) == SignedDataWalk(buf, pos, end, index, found, x509)
    {
      var tlv :- ReadHeader(buf, pos);
      found :- VisitField(buf, tlv, index, found, x509);
      pos :- Advance(tlv);
      index := index + 1;
    }
    return Finish(found);
  }

  method ReadSod(sod: Buffer, x509: CertificateParser) returns (r: Outcome<SodEnvelope>)
    ensures r == ParseSod(sod, x509)
  {
    var start := 0;
    if sod != [] && sod[0] == 0x77 {
      var wrapper :- ReadHeader(sod, 0);
      start := wrapper.contentStart;
    }
    var outer :- ReadHeader(sod, start);
    var pos := outer.contentStart;
    var end :- Advance(outer);
    while pos < end
      invariant FindContext(sod, outer.contentStart, end) == FindContext(sod, pos, end)
    {
      var tlv :- ReadHeader(sod, pos);
      if tlv.tag == 0xa0 {
        var data :- ReadHeader(sod, tlv.contentStart);
        r := ReadSignedData(sod, data.contentStart, data.contentLength, x509);
        return;
      }
      pos :- Advance(tlv);
    }
    return Failed;
  }
}
