/**
 * The SOD reader in a build without overflow checks, where position sums wrap.  Its loops need not
 * end there, so every loop gets a number of rounds.
 */
module Release {
  import opened Bytes
  import opened Wrappers
  import opened Der
  import opened Walk
  import opened Sod
  import Oid
  import Chains
  import Cms
  import SodRoundTrip

  /** The result of a computation with bounded rounds. */
  datatype Run<+T> = Ended(outcome: Outcome<T>) | Running {

    predicate IsFailure() {
      !(Ended? && outcome.Done?)
    }

    function PropagateFailure<U>(): Run<U>
      requires IsFailure()
    {
      if Running? then Running else Ended(outcome.PropagateFailure())
    }

    function Extract(): T
      requires !IsFailure()
    {
      outcome.value
    }
  }

  /** A slice whose wrapped end lies before its start is out of range. */
  function ContentW(buf: Buffer, tlv: Tlv): Outcome<Buffer>
    requires tlv.contentStart <= |buf|
  {
    var end := WrappedNext(tlv);
    if tlv.contentStart <= end <= |buf| then Done(buf[tlv.contentStart..end]) else OutOfRange
  }

  function OidAtW(buf: Buffer, pos: nat): Outcome<string> {
    var tlv :- Header(buf, pos);
    var bytes :- ContentW(buf, tlv);
    Done(Oid.ParseOidRaw(bytes))
  }

  function AlgorithmAtW(buf: Buffer, pos: nat): Outcome<string> {
    var algorithm :- Header(buf, pos);
    OidAtW(buf, algorithm.contentStart)
  }

  function FindContextW(buf: Buffer, pos: nat, end: nat, rounds: nat): Run<Tlv>
    decreases rounds
  {
    if pos >= end then Ended(Failed)
    else
      var tlv :- Ended(Header(buf, pos));
      if tlv.tag == 0xa0 then Ended(Done(tlv))
      else if rounds == 0 then Running
      else FindContextW(buf, WrappedNext(tlv), end, rounds - 1)
  }

  function LdsHashOidW(econtent: Buffer): Outcome<string> {
    var root :- Header(econtent, 0);
    var version :- Header(econtent, root.contentStart);
    AlgorithmAtW(econtent, WrappedNext(version))
  }

  function EContentInfoW(buf: Buffer, start: nat, len: nat, rounds: nat): Run<EContent> {
    var context :- FindContextW(buf, start, (start + len) % WORD, rounds);
    var octets :- Ended(Header(buf, context.contentStart));
    var bytes :- Ended(ContentW(buf, octets));
    var hashOid :- Ended(LdsHashOidW(bytes));
    Ended(Done(EContent(hashOid, bytes)))
  }

  function SignerWalkW(buf: Buffer, pos: nat, end: nat, index: nat, rounds: nat): Run<string>
    decreases rounds
  {
    if pos >= end then Ended(Failed)
    else
      var tlv :- Ended(Header(buf, pos));
      if tlv.tag == 0x30 && index >= 3 then Ended(OidAtW(buf, tlv.contentStart))
      else if rounds == 0 then Running
      else SignerWalkW(buf, WrappedNext(tlv), end, index + 1, rounds - 1)
  }

  function SignerAlgorithmW(buf: Buffer, start: nat, len: nat, rounds: nat): Run<string> {
    SignerWalkW(buf, start, (start + len) % WORD, 0, rounds)
  }

  /** The slice starts at the header, so a wrapped end can also lie inside it. */
  function CertificateAtW(buf: Buffer, pos: nat, x509: CertificateParser): Outcome<Certificate> {
    var tlv :- Header(buf, pos);
    var end := WrappedNext(tlv);
    if end < tlv.offset || end > |buf| then OutOfRange
    else
      var der := buf[tlv.offset..end];
      match x509(der)
      case None => Failed
      case Some(oid) => Done(Certificate(der, oid))
  }

  function VisitW(buf: Buffer, tlv: Tlv, index: nat, found: Found, x509: CertificateParser, rounds: nat): Run<Found> {
    if index == 1 && tlv.tag == 0x31 then
      var oid :- Ended(AlgorithmAtW(buf, tlv.contentStart));
      Ended(Done(found.(digest := Some(oid))))
    else if index == 2 && tlv.tag == 0x30 then
      var econtent :- EContentInfoW(buf, tlv.contentStart, tlv.contentLength, rounds);
      Ended(Done(found.(econtent := Some(econtent))))
    else if index >= 3 && tlv.tag == 0xa0 then
      var certificate :- Ended(CertificateAtW(buf, tlv.contentStart, x509));
      Ended(Done(found.(certificate := Some(certificate))))
    else if index >= 4 && tlv.tag == 0x31 then
      var signer :- Ended(Header(buf, tlv.contentStart));
      var oid :- SignerAlgorithmW(buf, signer.contentStart, signer.contentLength, rounds);
      Ended(Done(found.(signer := Some(oid))))
    else Ended(Done(found))
  }

  /** `inner` rounds for each loop of a visit. */
  function SignedDataWalkW(buf: Buffer, pos: nat, end: nat, index: nat, found: Found, x509: CertificateParser,
                           rounds: nat, inner: nat): Run<Found>
    decreases rounds
  {
    if pos >= end then Ended(Done(found))
    else
      var tlv :- Ended(Header(buf, pos));
      var found' :- VisitW(buf, tlv, index, found, x509, inner);
      if rounds == 0 then Running
      else SignedDataWalkW(buf, WrappedNext(tlv), end, index + 1, found', x509, rounds - 1, inner)
  }

  function ParseSodW(sod: Buffer, x509: CertificateParser, rounds: nat): Run<SodEnvelope> {
    var start :- Ended(ContentInfoStart(sod));
    var outer :- Ended(Header(sod, start));
    var context :- FindContextW(sod, outer.contentStart, WrappedNext(outer), rounds);
    var data :- Ended(Header(sod, context.contentStart));
    var found :- SignedDataWalkW(sod, data.contentStart, WrappedNext(data), 0, NOTHING, x509, rounds, rounds);
    Ended(Finish(found))
  }

  // ----- both builds agree if and only if nothing overflows

  /** The wrapping build knows no overflow, so it agrees exactly when the checked one meets none. */
  predicate AgreeIff<T(==)>(checked: Outcome<T>, wrapped: Run<T>) {
    && (wrapped == Ended(checked) <==> !checked.Overflowed?)
    && wrapped != Ended(Overflowed)
  }

  /** Where a step is taken in both builds. */
  lemma HeaderAdvances(buf: Buffer, pos: nat, tlv: Tlv)
    requires Header(buf, pos) == Done(tlv)
    ensures tlv.offset == pos && tlv.contentStart <= |buf| && pos + 2 <= tlv.End() && pos < |buf|
    ensures if tlv.End() < WORD then Advance(tlv) == Done(tlv.End()) && WrappedNext(tlv) == tlv.End()
            else Advance(tlv) == Overflowed && WrappedNext(tlv) < tlv.contentStart
  {
    WrappedStepPassesHeader(buf, pos);
  }

  /** Reading a header is the same in both builds. */
  lemma OutOfBuffer(buf: Buffer, pos: nat)
    ensures pos >= |buf| ==> Header(buf, pos) == Failed
    ensures !Header(buf, pos).Panicked()
  {
  }

  lemma ContentAgrees(buf: Buffer, pos: nat, tlv: Tlv)
    requires Header(buf, pos) == Done(tlv) && tlv.contentStart <= |buf|
    ensures AgreeIff(Content(buf, tlv), Ended(ContentW(buf, tlv)))
  {
    hide Header, WrappedNext;
    HeaderAdvances(buf, pos, tlv);
  }

  lemma OidAgrees(buf: Buffer, pos: nat)
    ensures AgreeIff(OidAt(buf, pos), Ended(OidAtW(buf, pos)))
  {
    hide Header, Content, ContentW, Oid.ParseOidRaw;
    OutOfBuffer(buf, pos);
    if Header(buf, pos).Done? {
      HeaderAdvances(buf, pos, Header(buf, pos).value);
      ContentAgrees(buf, pos, Header(buf, pos).value);
    }
  }

  lemma AlgorithmAgrees(buf: Buffer, pos: nat)
    ensures AgreeIff(AlgorithmAt(buf, pos), Ended(AlgorithmAtW(buf, pos)))
  {
    hide Header, OidAt, OidAtW;
    OutOfBuffer(buf, pos);
    if Header(buf, pos).Done? {
      OidAgrees(buf, Header(buf, pos).value.contentStart);
    }
  }

  /** Here the loop's own sums are the only ones. */
  lemma {:induction false} FindContextAgrees(buf: Buffer, pos: nat, end: nat, rounds: nat)
    requires pos + rounds >= |buf|
    requires !FindContext(buf, pos, end).Overflowed?
    ensures FindContextW(buf, pos, end, rounds) == Ended(FindContext(buf, pos, end))
    decreases rounds
  {
    hide WrappedNext, Header, Advance;
    OutOfBuffer(buf, pos);
    if pos < end && Header(buf, pos).Done? {
      var tlv := Header(buf, pos).value;
      HeaderAdvances(buf, pos, tlv);
      if tlv.End() < WORD && tlv.tag != 0xa0 {
        FindContextAgrees(buf, tlv.End(), end, rounds - 1);
      }
    }
  }

  lemma {:induction false} FindContextNeverOverflows(buf: Buffer, pos: nat, end: nat, rounds: nat)
    ensures FindContextW(buf, pos, end, rounds) != Ended(Overflowed)
    decreases rounds
  {
    hide WrappedNext, Header;
    OutOfBuffer(buf, pos);
    if pos < end && Header(buf, pos).Done? && rounds > 0 {
      FindContextNeverOverflows(buf, WrappedNext(Header(buf, pos).value), end, rounds - 1);
    }
  }

  lemma {:induction false} SignerWalkAgrees(buf: Buffer, pos: nat, end: nat, index: nat, rounds: nat)
    requires pos + rounds >= |buf|
    requires !SignerWalk(buf, pos, end, index).Overflowed?
    ensures SignerWalkW(buf, pos, end, index, rounds) == Ended(SignerWalk(buf, pos, end, index))
    decreases rounds
  {
    hide WrappedNext, Header, Advance, OidAt, OidAtW;
    OutOfBuffer(buf, pos);
    if pos < end && Header(buf, pos).Done? {
      var tlv := Header(buf, pos).value;
      HeaderAdvances(buf, pos, tlv);
      if tlv.tag == 0x30 && index >= 3 {
        OidAgrees(buf, tlv.contentStart);
      } else if tlv.End() < WORD {
        SignerWalkAgrees(buf, tlv.End(), end, index + 1, rounds - 1);
      }
    }
  }

  lemma {:induction false} SignerWalkNeverOverflows(buf: Buffer, pos: nat, end: nat, index: nat, rounds: nat)
    ensures SignerWalkW(buf, pos, end, index, rounds) != Ended(Overflowed)
    decreases rounds
  {
    hide WrappedNext, Header, OidAt, OidAtW;
    OutOfBuffer(buf, pos);
    if pos < end && Header(buf, pos).Done? {
      OidAgrees(buf, Header(buf, pos).value.contentStart);
      if rounds > 0 {
        SignerWalkNeverOverflows(buf, WrappedNext(Header(buf, pos).value), end, index + 1, rounds - 1);
      }
    }
  }

  lemma SignerAgrees(buf: Buffer, pos: nat, signer: Tlv, rounds: nat)
    requires Header(buf, pos) == Done(signer) && rounds >= |buf|
    ensures AgreeIff(SignerAlgorithm(buf, signer.contentStart, signer.contentLength),
                     SignerAlgorithmW(buf, signer.contentStart, signer.contentLength, rounds))
  {
    hide Header, SignerWalk, SignerWalkW;
    HeaderAdvances(buf, pos, signer);
    SignerWalkNeverOverflows(buf, signer.contentStart, signer.End() % WORD, 0, rounds);
    if signer.End() < WORD && !SignerWalk(buf, signer.contentStart, signer.End(), 0).Overflowed? {
      SignerWalkAgrees(buf, signer.contentStart, signer.End(), 0, rounds);
    }
  }

  lemma LdsHashOidAgrees(econtent: Buffer)
    ensures AgreeIff(LdsHashOid(econtent), Ended(LdsHashOidW(econtent)))
  {
    hide WrappedNext, Header, Advance, AlgorithmAt, AlgorithmAtW;
    OutOfBuffer(econtent, 0);
    if Header(econtent, 0).Done? {
      var start := Header(econtent, 0).value.contentStart;
      OutOfBuffer(econtent, start);
      if Header(econtent, start).Done? {
        var version := Header(econtent, start).value;
        HeaderAdvances(econtent, start, version);
        AlgorithmAgrees(econtent, WrappedNext(version));
      }
    }
  }

  /** What follows the search for eContent. */
  lemma OctetsAgree(buf: Buffer, pos: nat)
    ensures AgreeIff(OctetsOf(buf, pos), OctetsOfW(buf, pos))
  {
    hide Header, Content, ContentW, LdsHashOid, LdsHashOidW;
    OutOfBuffer(buf, pos);
    if Header(buf, pos).Done? {
      var octets := Header(buf, pos).value;
      HeaderAdvances(buf, pos, octets);
      ContentAgrees(buf, pos, octets);
      if Content(buf, octets).Done? {
        LdsHashOidAgrees(Content(buf, octets).value);
      }
      if ContentW(buf, octets).Done? {
        LdsHashOidAgrees(ContentW(buf, octets).value);
      }
    }
  }

  function OctetsOf(buf: Buffer, pos: nat): Outcome<EContent> {
    var octets :- Header(buf, pos);
    var bytes :- Content(buf, octets);
    var hashOid :- LdsHashOid(bytes);
    Done(EContent(hashOid, bytes))
  }

  function OctetsOfW(buf: Buffer, pos: nat): Run<EContent> {
    var octets :- Ended(Header(buf, pos));
    var bytes :- Ended(ContentW(buf, octets));
    var hashOid :- Ended(LdsHashOidW(bytes));
    Ended(Done(EContent(hashOid, bytes)))
  }

  lemma EContentInfoAgrees(buf: Buffer, pos: nat, tlv: Tlv, rounds: nat)
    requires Header(buf, pos) == Done(tlv) && rounds >= |buf|
    ensures AgreeIff(EContentInfo(buf, tlv.contentStart, tlv.contentLength),
                     EContentInfoW(buf, tlv.contentStart, tlv.contentLength, rounds))
  {
    hide Header, FindContext, FindContextW, LdsHashOid, LdsHashOidW, Content, ContentW;
    HeaderAdvances(buf, pos, tlv);
    FindContextNeverOverflows(buf, tlv.contentStart, tlv.End() % WORD, rounds);
    var wrapped := FindContextW(buf, tlv.contentStart, tlv.End() % WORD, rounds);
    if wrapped.Ended? && wrapped.outcome.Done? {
      OctetsAgree(buf, wrapped.outcome.value.contentStart);
    }
    if tlv.End() < WORD && !FindContext(buf, tlv.contentStart, tlv.End()).Overflowed? {
      FindContextAgrees(buf, tlv.contentStart, tlv.End(), rounds);
    }
  }

  lemma CertificateAgrees(buf: Buffer, pos: nat, x509: CertificateParser)
    ensures AgreeIff(CertificateAt(buf, pos, x509), Ended(CertificateAtW(buf, pos, x509)))
  {
    hide WrappedNext, Header;
    OutOfBuffer(buf, pos);
    if Header(buf, pos).Done? {
      HeaderAdvances(buf, pos, Header(buf, pos).value);
    }
  }

  lemma VisitAgrees(buf: Buffer, pos: nat, tlv: Tlv, index: nat, found: Found, x509: CertificateParser, rounds: nat)
    requires Header(buf, pos) == Done(tlv) && rounds >= |buf|
    ensures AgreeIff(Visit(buf, tlv, index, found, x509), VisitW(buf, tlv, index, found, x509, rounds))
  {
    hide WrappedNext, Header, AlgorithmAt, AlgorithmAtW, EContentInfo, EContentInfoW, CertificateAt, CertificateAtW,
         SignerAlgorithm, SignerAlgorithmW;
    AlgorithmAgrees(buf, tlv.contentStart);
    EContentInfoAgrees(buf, pos, tlv, rounds);
    CertificateAgrees(buf, tlv.contentStart, x509);
    OutOfBuffer(buf, tlv.contentStart);
    if Header(buf, tlv.contentStart).Done? {
      SignerAgrees(buf, tlv.contentStart, Header(buf, tlv.contentStart).value, rounds);
    }
  }

  lemma {:induction false} SignedDataWalkAgrees(buf: Buffer, pos: nat, end: nat, index: nat, found: Found,
                                                x509: CertificateParser, rounds: nat, inner: nat)
    requires pos + rounds >= |buf| && inner >= |buf|
    requires !SignedDataWalk(buf, pos, end, index, found, x509).Overflowed?
    ensures SignedDataWalkW(buf, pos, end, index, found, x509, rounds, inner)
         == Ended(SignedDataWalk(buf, pos, end, index, found, x509))
    decreases rounds
  {
    hide WrappedNext, Header, Advance, Visit, VisitW;
    OutOfBuffer(buf, pos);
    if pos < end && Header(buf, pos).Done? {
      var tlv := Header(buf, pos).value;
      HeaderAdvances(buf, pos, tlv);
      VisitAgrees(buf, pos, tlv, index, found, x509, inner);
      var visited := Visit(buf, tlv, index, found, x509);
      if tlv.End() < WORD && visited.Done? {
        SignedDataWalkAgrees(buf, tlv.End(), end, index + 1, visited.value, x509, rounds - 1, inner);
      }
    }
  }

  lemma {:induction false} SignedDataNeverOverflows(buf: Buffer, pos: nat, end: nat, index: nat, found: Found,
                                                    x509: CertificateParser, rounds: nat, inner: nat)
    requires inner >= |buf|
    ensures SignedDataWalkW(buf, pos, end, index, found, x509, rounds, inner) != Ended(Overflowed)
    decreases rounds
  {
    hide WrappedNext, Header, Visit, VisitW;
    OutOfBuffer(buf, pos);
    if pos < end && Header(buf, pos).Done? {
      var tlv := Header(buf, pos).value;
      VisitAgrees(buf, pos, tlv, index, found, x509, inner);
      var visited := VisitW(buf, tlv, index, found, x509, inner);
      if rounds > 0 && !visited.IsFailure() {
        SignedDataNeverOverflows(buf, WrappedNext(tlv), end, index + 1, visited.Extract(), x509, rounds - 1, inner);
      }
    }
  }

  /** What follows the search for the SignedData. */
  function FromContext(sod: Buffer, pos: nat, x509: CertificateParser): Outcome<SodEnvelope> {
    var data :- Header(sod, pos);
    ParseSignedData(sod, data.contentStart, data.contentLength, x509)
  }

  function FromContextW(sod: Buffer, pos: nat, x509: CertificateParser, rounds: nat): Run<SodEnvelope> {
    var data :- Ended(Header(sod, pos));
    var found :- SignedDataWalkW(sod, data.contentStart, WrappedNext(data), 0, NOTHING, x509, rounds, rounds);
    Ended(Finish(found))
  }

  lemma FromContextAgrees(sod: Buffer, pos: nat, x509: CertificateParser, rounds: nat)
    requires rounds >= |sod|
    ensures AgreeIff(FromContext(sod, pos, x509), FromContextW(sod, pos, x509, rounds))
  {
    hide WrappedNext, Header, SignedDataWalk, SignedDataWalkW, Finish;
    OutOfBuffer(sod, pos);
    if Header(sod, pos).Done? {
      var data := Header(sod, pos).value;
      HeaderAdvances(sod, pos, data);
      Chains.FinishNeverPanics();
      SignedDataNeverOverflows(sod, data.contentStart, WrappedNext(data), 0, NOTHING, x509, rounds, rounds);
      if data.End() < WORD && !SignedDataWalk(sod, data.contentStart, data.End(), 0, NOTHING, x509).Overflowed? {
        SignedDataWalkAgrees(sod, data.contentStart, data.End(), 0, NOTHING, x509, rounds, rounds);
      }
    }
  }

  /**
   * With as many rounds as the file has bytes: the build without overflow checks ends and returns
   * what the checked build returns, errors and failing slices included, if and only if the checked
   * build meets no overflow.
   */
  lemma ReleaseReadsTheSameIff(sod: Buffer, x509: CertificateParser, rounds: nat)
    requires rounds >= |sod|
    ensures ParseSodW(sod, x509, rounds) == Ended(ParseSod(sod, x509)) <==> !ParseSod(sod, x509).Overflowed?
    ensures ParseSodW(sod, x509, rounds) != Ended(Overflowed)
  {
    hide WrappedNext, Header, FindContext, FindContextW, ParseSignedData, SignedDataWalkW, Finish, ContentInfoStart;
    var start := ContentInfoStart(sod);
    StartAgrees(sod);
    if start.Done? {
      OutOfBuffer(sod, start.value);
      if Header(sod, start.value).Done? {
        var outer := Header(sod, start.value).value;
        HeaderAdvances(sod, start.value, outer);
        FindContextNeverOverflows(sod, outer.contentStart, WrappedNext(outer), rounds);
        var wrapped := FindContextW(sod, outer.contentStart, WrappedNext(outer), rounds);
        if wrapped.Ended? && wrapped.outcome.Done? {
          FromContextAgrees(sod, wrapped.outcome.value.contentStart, x509, rounds);
        }
        if outer.End() < WORD && !FindContext(sod, outer.contentStart, outer.End()).Overflowed? {
          FindContextAgrees(sod, outer.contentStart, outer.End(), rounds);
        }
      }
    }
  }

  lemma StartAgrees(sod: Buffer)
    ensures !ContentInfoStart(sod).Panicked()
  {
    hide Header;
    OutOfBuffer(sod, 0);
  }

  /** So what was encoded comes back in that build too. */
  lemma ReleaseInvertsEncode(sod: Buffer, data: Cms.SignedData, wrapped: bool, x509: CertificateParser, rounds: nat)
    requires SodRoundTrip.Readable(data) && rounds >= |sod|
    requires At(sod, 0, Cms.EncodeSod(data, wrapped))
    ensures ParseSodW(sod, x509, rounds) == Ended(SodRoundTrip.Expected(data, x509))
  {
    SodRoundTrip.ParseSodInvertsEncode(sod, data, wrapped, x509);
    hide ParseSod, ParseSodW, At, Cms.EncodeSod;
    ReleaseReadsTheSameIff(sod, x509, rounds);
  }

  // ----- where it does not end

  /** A SEQUENCE of ten bytes that holds one header with a length of 2^64 - 10. */
  const STUCK: Buffer := [0x30, 0x0a, 0x30, 0x88, 0xff, 0xff, 0xff, 0xff, 0xff, 0xff, 0xff, 0xf6]

  /** However many rounds it gets, the reader has not ended on this file; the checked one overflows. */
  lemma ReleaseNeverEnds(x509: CertificateParser, rounds: nat)
    ensures ParseSodW(STUCK, x509, rounds) == Running
    ensures ParseSod(STUCK, x509) == Overflowed
  {
    StuckHeader();
    StandsStill(rounds);
    assert Header(STUCK, 0) == Done(Tlv(0, 0x30, 2, 10));
    assert ContentInfoStart(STUCK) == Done(0);
    hide FindContextW;
  }

  lemma {:induction false} StandsStill(rounds: nat)
    ensures FindContextW(STUCK, 2, 12, rounds) == Running
  {
    StuckHeader();
    assert (WORD + 2) % WORD == 2;
    if rounds > 0 {
      StandsStill(rounds - 1);
    }
  }

  const LENGTH: seq<byte> := [0xff, 0xff, 0xff, 0xff, 0xff, 0xff, 0xff, 0xf6]

  lemma StuckLength()
    ensures ToNat(LENGTH) == WORD - 10
  {
    hide ToNat;
    var ff: byte := 0xff;
    EmptyNumber();
    ToNatAppend([], ff, [ff]);
    ToNatAppend([ff], ff, [ff, ff]);
    ToNatAppend([ff, ff], ff, [ff, ff, ff]);
    ToNatAppend([ff, ff, ff], ff, [ff, ff, ff, ff]);
    ToNatAppend([ff, ff, ff, ff], ff, [ff, ff, ff, ff, ff]);
    ToNatAppend([ff, ff, ff, ff, ff], ff, [ff, ff, ff, ff, ff, ff]);
    ToNatAppend([ff, ff, ff, ff, ff, ff], ff, [ff, ff, ff, ff, ff, ff, ff]);
    ToNatAppend([ff, ff, ff, ff, ff, ff, ff], 0xf6, LENGTH);
  }

  lemma EmptyNumber()
    ensures ToNat([]) == 0
  {
  }

  lemma StuckHeader()
    ensures ParseTlv(STUCK, 2) == Some(Tlv(2, 0x30, 12, WORD - 10))
  {
    hide ToNat;
    StuckLength();
    assert STUCK[4..12] == LENGTH;
    ModSmall(WORD - 10);
  }
}
