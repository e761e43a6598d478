/**
 * Cryptographic Message Syntax values as a passport's document security object carries them, with
 * their DER encodings: sections 3, 5.1, 5.2 and 5.3 of RFC 5652 and the LDS security object of
 * ICAO Doc 9303 part 10.
 */
module Cms {
  import opened Bytes
  import opened Wrappers
  import Der
  import Oid

  type ObjectId = arcs: seq<nat> | Oid.IsOid(arcs) witness [0, 0]

  /** Any DER value: a tag and the bytes of its content. */
  datatype Value = Value(tag: byte, content: seq<byte>) {

    function Encoded(): seq<byte> {
      Der.Encode(tag, content)
    }
  }

  function EncodeAll(values: seq<Value>): seq<byte> {
    if values == [] then [] else values[0].Encoded() + EncodeAll(values[1..])
  }

  function Optional(tag: byte, content: Option<seq<byte>>): seq<Value> {
    match content
    case None => []
    case Some(bytes) => [Value(tag, bytes)]
  }

  /** AlgorithmIdentifier ::= SEQUENCE { algorithm OBJECT IDENTIFIER, parameters ANY OPTIONAL } */
  datatype AlgorithmIdentifier = AlgorithmIdentifier(oid: ObjectId, parameters: seq<byte>) {

    function AsValue(): Value {
      Value(0x30, Der.Encode(0x06, Oid.EncodeOid(oid)) + parameters)
    }
  }

  /** SignerIdentifier ::= CHOICE { issuerAndSerialNumber, [0] subjectKeyIdentifier } */
  datatype SignerIdentifier = IssuerAndSerialNumber(content: seq<byte>) | SubjectKeyIdentifier(id: seq<byte>) {

    function AsValue(): Value {
      match this
      case IssuerAndSerialNumber(content) => Value(0x30, content)
      case SubjectKeyIdentifier(id) => Value(0x80, id)
    }
  }

  datatype SignerInfo = SignerInfo(
    version: seq<byte>,
    sid: SignerIdentifier,
    digestAlgorithm: AlgorithmIdentifier,
    signedAttrs: Option<seq<byte>>,
    signatureAlgorithm: AlgorithmIdentifier,
    signature: seq<byte>,
    unsignedAttrs: Option<seq<byte>>)
  {
    /** The fields up to the signature algorithm, and the ones from there on. */
    function Head(): seq<Value> {
      [Value(0x02, version), sid.AsValue(), digestAlgorithm.AsValue()] + Optional(0xa0, signedAttrs)
    }

    function Tail(): seq<Value> {
      [signatureAlgorithm.AsValue(), Value(0x04, signature)] + Optional(0xa1, unsignedAttrs)
    }

    function AsValue(): Value {
      Value(0x30, EncodeAll(Head() + Tail()))
    }
  }

  /** LDSSecurityObject: version, hash algorithm, data group hashes, optional version info. */
  datatype LdsSecurityObject = LdsSecurityObject(
    version: seq<byte>,
    hashAlgorithm: AlgorithmIdentifier,
    dataGroupHashes: seq<byte>,
    versionInfo: Option<seq<byte>>)
  {
    function Fields(): seq<Value> {
      [Value(0x02, version), hashAlgorithm.AsValue(), Value(0x30, dataGroupHashes)] + Optional(0x30, versionInfo)
    }

    function Encoded(): seq<byte> {
      Der.Encode(0x30, EncodeAll(Fields()))
    }
  }

  /** `certificates` holds any CertificateChoices, each by its whole encoding. */
  datatype SignedData = SignedData(
    version: seq<byte>,
    digestAlgorithms: seq<AlgorithmIdentifier>,
    eContentType: ObjectId,
    eContent: LdsSecurityObject,
    certificates: Option<seq<Value>>,
    crls: Option<seq<byte>>,
    signerInfos: seq<SignerInfo>)
  {
    function DigestSet(): Value {
      Value(0x31, EncodeAll(seq(|digestAlgorithms|, i requires 0 <= i < |digestAlgorithms| => digestAlgorithms[i].AsValue())))
    }

    function EncapContentInfo(): Value {
      Value(0x30, EncodeAll([Value(0x06, Oid.EncodeOid(eContentType)), Value(0xa0, Der.Encode(0x04, eContent.Encoded()))]))
    }

    function CertificateSet(): seq<Value> {
      match certificates
      case None => []
      case Some(choices) => [Value(0xa0, EncodeAll(choices))]
    }

    function SignerSet(): Value {
      Value(0x31, EncodeAll(seq(|signerInfos|, i requires 0 <= i < |signerInfos| => signerInfos[i].AsValue())))
    }

    function Fields(): seq<Value> {
      [Value(0x02, version), DigestSet(), EncapContentInfo()] + CertificateSet() + Optional(0xa1, crls) + [SignerSet()]
    }

    function Encoded(): seq<byte> {
      Der.Encode(0x30, EncodeAll(Fields()))
    }
  }

  const ID_SIGNED_DATA: ObjectId := [1, 2, 840, 113549, 1, 7, 2]

  /** ContentInfo ::= SEQUENCE { contentType, content [0] EXPLICIT } */
  function EncodeContentInfo(data: SignedData): seq<byte> {
    Der.Encode(0x30, EncodeAll([Value(0x06, Oid.EncodeOid(ID_SIGNED_DATA)), Value(0xa0, data.Encoded())]))
  }

  /** The file EF.SOD wraps the ContentInfo in an application tag; bare ContentInfos also occur. */
  function EncodeSod(data: SignedData, wrapped: bool): seq<byte> {
    if wrapped then Der.Encode(0x77, EncodeContentInfo(data)) else EncodeContentInfo(data)
  }
}
