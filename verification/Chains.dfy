/** The three loops of the SOD reader, each as a function of the headers of one sibling walk. */
module Chains {
  import opened Bytes
  import opened Wrappers
  import opened Der
  import opened Walk
  import opened Sod
  import Oid

  /** The first of the headers with the context tag. */
  function ContextIn(headers: seq<Tlv>): Option<Tlv> {
    if headers == [] then None
    else if headers[0].tag == 0xa0 then Some(headers[0])
    else ContextIn(headers[1..])
  }

  lemma TraceStep(buf: Buffer, pos: nat, end: nat, tlv: Tlv)
    requires pos < end && ParseTlv(buf, pos) == Some(tlv)
    ensures Trace(buf, pos, end) == [tlv] + if tlv.End() < WORD then Trace(buf, tlv.End(), end) else []
  {
    hide ParseTlv;
  }

  lemma TraceStops(buf: Buffer, pos: nat, end: nat)
    requires pos >= end || ParseTlv(buf, pos).None?
    ensures Trace(buf, pos, end) == []
  {
    hide ParseTlv;
  }

  /** The search for [0] answers with the first such header of the walk, and fails only if there is none. */
  lemma {:induction false} FindContextReadsTrace(buf: Buffer, pos: nat, end: nat)
    ensures var context := ContextIn(Trace(buf, pos, end));
            if context.Some? then FindContext(buf, pos, end) == Done(context.value)
            else !FindContext(buf, pos, end).Done?
    decreases end - pos
  {
    hide ParseTlv;
    if pos < end && ParseTlv(buf, pos).Some? {
      var tlv := ParseTlv(buf, pos).value;
      if tlv.End() < WORD {
        FindContextReadsTrace(buf, tlv.End(), end);
        assert Trace(buf, pos, end)[1..] == Trace(buf, tlv.End(), end);
      }
    }
  }

  /** The first header with the SEQUENCE tag from field 3 on; the headers start at field `index`. */
  function SignatureIn(headers: seq<Tlv>, index: nat): Option<Tlv> {
    if headers == [] then None
    else if headers[0].tag == 0x30 && index >= 3 then Some(headers[0])
    else SignatureIn(headers[1..], index + 1)
  }

  lemma SignerStep(buf: Buffer, pos: nat, end: nat, index: nat, tlv: Tlv)
    requires pos < end && ParseTlv(buf, pos) == Some(tlv)
    ensures SignerWalk(buf, pos, end, index)
         == if tlv.tag == 0x30 && index >= 3 then OidAt(buf, tlv.contentStart)
            else if tlv.End() < WORD then SignerWalk(buf, tlv.End(), end, index + 1)
            else Overflowed
  {
    hide ParseTlv, OidAt;
  }

  lemma SignerStops(buf: Buffer, pos: nat, end: nat, index: nat)
    requires pos >= end || ParseTlv(buf, pos).None?
    ensures SignerWalk(buf, pos, end, index) == Failed
  {
    hide ParseTlv, OidAt;
  }

  /** The SignerInfo loop reads the identifier behind that header, and fails if there is none. */
  lemma {:induction false} SignerWalkReadsTrace(buf: Buffer, pos: nat, end: nat, index: nat)
    ensures var signature := SignatureIn(Trace(buf, pos, end), index);
            if signature.Some? then SignerWalk(buf, pos, end, index) == OidAt(buf, signature.value.contentStart)
            else !SignerWalk(buf, pos, end, index).Done?
    decreases end - pos
  {
    hide ParseTlv, OidAt, SignerWalk, Trace;
    if pos < end && ParseTlv(buf, pos).Some? {
      var tlv := ParseTlv(buf, pos).value;
      var rest := if tlv.End() < WORD then Trace(buf, tlv.End(), end) else [];
      SignerStep(buf, pos, end, index, tlv);
      TraceStep(buf, pos, end, tlv);
      assert ([tlv] + rest)[1..] == rest;
      if tlv.End() < WORD {
        SignerWalkReadsTrace(buf, tlv.End(), end, index + 1);
      }
    } else {
      SignerStops(buf, pos, end, index);
      TraceStops(buf, pos, end);
    }
  }

  /** What the SignedData loop does with a list of headers. */
  function VisitAll(buf: Buffer, headers: seq<Tlv>, index: nat, found: Found, x509: CertificateParser): Outcome<Found>
    requires forall k :: 0 <= k < |headers| ==> headers[k].contentStart <= |buf|
  {
    if headers == [] then Done(found)
    else
      var found' :- Visit(buf, headers[0], index, found, x509);
      VisitAll(buf, headers[1..], index + 1, found', x509)
  }

  lemma TraceInBuffer(buf: Buffer, pos: nat, end: nat)
    ensures forall k :: 0 <= k < |Trace(buf, pos, end)| ==> Trace(buf, pos, end)[k].contentStart <= |buf|
  {
    forall k | 0 <= k < |Trace(buf, pos, end)|
      ensures Trace(buf, pos, end)[k].contentStart <= |buf|
    {
      TraceIsLinked(buf, pos, end, k);
    }
  }

  /** It succeeds exactly when the walk completes and every visit does, and then with the visits' result. */
  lemma {:induction false} SignedDataVisitsSiblings(buf: Buffer, pos: nat, end: nat, index: nat, found: Found,
                                                    x509: CertificateParser)
    ensures forall k :: 0 <= k < |Trace(buf, pos, end)| ==> Trace(buf, pos, end)[k].contentStart <= |buf|
    ensures Siblings(buf, pos, end).Done? ==> Siblings(buf, pos, end).value == Trace(buf, pos, end)
    ensures SignedDataWalk(buf, pos, end, index, found, x509).Done?
       <==> Siblings(buf, pos, end).Done? && VisitAll(buf, Trace(buf, pos, end), index, found, x509).Done?
    ensures SignedDataWalk(buf, pos, end, index, found, x509).Done? ==>
              SignedDataWalk(buf, pos, end, index, found, x509) == VisitAll(buf, Trace(buf, pos, end), index, found, x509)
    decreases end - pos
  {
    hide ParseTlv, Visit;
    TraceInBuffer(buf, pos, end);
    if Siblings(buf, pos, end).Done? {
      SiblingsAreTrace(buf, pos, end);
    }
    if pos < end && ParseTlv(buf, pos).Some? {
      var tlv := ParseTlv(buf, pos).value;
      var visited := Visit(buf, tlv, index, found, x509);
      if visited.Done? && tlv.End() < WORD {
        SignedDataVisitsSiblings(buf, tlv.End(), end, index + 1, visited.value, x509);
        assert Trace(buf, pos, end)[1..] == Trace(buf, tlv.End(), end);
      }
    }
  }

  // ----- narrow length fields: the loops' own steps never overflow

  lemma NarrowStep(buf: Buffer, pos: nat, tlv: Tlv)
    requires AllNarrow(buf) && ParseTlv(buf, pos) == Some(tlv)
    ensures tlv.End() < WORD && pos < tlv.End()
  {
    NarrowLengthAdvances(buf, pos);
  }

  lemma {:induction false} NarrowFindContext(buf: Buffer, pos: nat, end: nat)
    requires AllNarrow(buf)
    ensures !FindContext(buf, pos, end).Panicked()
    decreases end - pos
  {
    hide ParseTlv, AllNarrow;
    if pos < end && ParseTlv(buf, pos).Some? {
      var tlv := ParseTlv(buf, pos).value;
      NarrowStep(buf, pos, tlv);
      NarrowFindContext(buf, tlv.End(), end);
    }
  }

  /** Here only reading the identifier itself can panic. */
  lemma {:induction false} NarrowSignerWalk(buf: Buffer, pos: nat, end: nat, index: nat)
    requires AllNarrow(buf)
    ensures SignatureIn(Trace(buf, pos, end), index).None? ==> SignerWalk(buf, pos, end, index) == Failed
    decreases end - pos
  {
    hide ParseTlv, AllNarrow, OidAt, SignerWalk, Trace;
    if pos < end && ParseTlv(buf, pos).Some? {
      var tlv := ParseTlv(buf, pos).value;
      NarrowStep(buf, pos, tlv);
      SignerStep(buf, pos, end, index, tlv);
      TraceStep(buf, pos, end, tlv);
      assert ([tlv] + Trace(buf, tlv.End(), end))[1..] == Trace(buf, tlv.End(), end);
      NarrowSignerWalk(buf, tlv.End(), end, index + 1);
    } else {
      SignerStops(buf, pos, end, index);
    }
  }

  /** And here only a visit can. */
  lemma {:induction false} NarrowSignedDataWalk(buf: Buffer, pos: nat, end: nat, index: nat, found: Found, x509: CertificateParser)
    requires AllNarrow(buf)
    ensures forall k :: 0 <= k < |Trace(buf, pos, end)| ==> Trace(buf, pos, end)[k].contentStart <= |buf|
    ensures var walked, visited := SignedDataWalk(buf, pos, end, index, found, x509),
                                   VisitAll(buf, Trace(buf, pos, end), index, found, x509);
            && (walked.Overflowed? <==> visited.Overflowed?)
            && (walked.OutOfRange? <==> visited.OutOfRange?)
    decreases end - pos
  {
    hide ParseTlv, AllNarrow, Visit;
    TraceInBuffer(buf, pos, end);
    if pos < end && ParseTlv(buf, pos).Some? {
      var tlv := ParseTlv(buf, pos).value;
      NarrowStep(buf, pos, tlv);
      var visited := Visit(buf, tlv, index, found, x509);
      if visited.Done? {
        NarrowSignedDataWalk(buf, tlv.End(), end, index + 1, visited.value, x509);
        assert Trace(buf, pos, end)[1..] == Trace(buf, tlv.End(), end);
      }
    }
  }

  // ----- the whole reader

  lemma NarrowHeader(buf: Buffer, pos: nat, tlv: Tlv)
    requires AllNarrow(buf) && Header(buf, pos) == Done(tlv)
    ensures tlv.contentStart <= tlv.End() < WORD && tlv.contentStart <= |buf|
  {
    hide AllNarrow, ParseTlv;
    NarrowStep(buf, pos, tlv);
  }

  lemma NarrowOid(buf: Buffer, pos: nat)
    requires AllNarrow(buf)
    ensures !OidAt(buf, pos).Overflowed? && !AlgorithmAt(buf, pos).Overflowed?
  {
    hide AllNarrow, ParseTlv, Oid.ParseOidRaw;
    if Header(buf, pos).Done? {
      var tlv := Header(buf, pos).value;
      NarrowHeader(buf, pos, tlv);
      if Header(buf, tlv.contentStart).Done? {
        NarrowHeader(buf, tlv.contentStart, Header(buf, tlv.contentStart).value);
      }
    }
  }

  /** Length fields in a part of a buffer are length fields of the buffer. */
  lemma NarrowSlice(buf: Buffer, from: nat, to: nat, part: Buffer)
    requires AllNarrow(buf) && from <= to <= |buf| && part == buf[from..to]
    ensures AllNarrow(part)
  {
    forall p | 0 <= p < |part| - 1 && ParseTlv(part, p).Some?
      ensures LengthBytes(part[p + 1]) <= 7
    {
      assert part[p + 1] == buf[from + p + 1];
      assert ParseTlv(buf, from + p).Some?;
    }
  }

  lemma NarrowLdsHashOid(econtent: Buffer)
    requires AllNarrow(econtent)
    ensures !LdsHashOid(econtent).Overflowed?
  {
    hide AllNarrow, ParseTlv, AlgorithmAt;
    if Header(econtent, 0).Done? {
      var start := Header(econtent, 0).value.contentStart;
      if Header(econtent, start).Done? {
        NarrowHeader(econtent, start, Header(econtent, start).value);
        NarrowOid(econtent, Header(econtent, start).value.End());
      }
    }
  }

  lemma NarrowEContentInfo(buf: Buffer, start: nat, len: nat)
    requires AllNarrow(buf) && start + len < WORD
    ensures !EContentInfo(buf, start, len).Overflowed?
  {
    hide AllNarrow, ParseTlv, FindContext, LdsHashOid;
    NarrowFindContext(buf, start, start + len);
    var context := FindContext(buf, start, start + len);
    if context.Done? && Header(buf, context.value.contentStart).Done? {
      var octets := Header(buf, context.value.contentStart).value;
      NarrowHeader(buf, context.value.contentStart, octets);
      if octets.End() <= |buf| {
        var bytes: Buffer := buf[octets.contentStart..octets.End()];
        NarrowSlice(buf, octets.contentStart, octets.End(), bytes);
        NarrowLdsHashOid(bytes);
      }
    }
  }

  lemma NarrowSignerAlgorithm(buf: Buffer, start: nat, len: nat)
    requires AllNarrow(buf) && start + len < WORD
    ensures !SignerAlgorithm(buf, start, len).Overflowed?
  {
    hide AllNarrow, ParseTlv, SignerWalk, OidAt, Trace;
    NarrowSignerWalk(buf, start, start + len, 0);
    SignerWalkReadsTrace(buf, start, start + len, 0);
    var signature := SignatureIn(Trace(buf, start, start + len), 0);
    if signature.Some? {
      NarrowOid(buf, signature.value.contentStart);
    }
  }

  lemma NarrowCertificate(buf: Buffer, pos: nat, x509: CertificateParser)
    requires AllNarrow(buf)
    ensures !CertificateAt(buf, pos, x509).Overflowed?
  {
    hide AllNarrow, ParseTlv;
    if Header(buf, pos).Done? {
      NarrowHeader(buf, pos, Header(buf, pos).value);
    }
  }

  lemma NarrowVisit(buf: Buffer, pos: nat, tlv: Tlv, index: nat, found: Found, x509: CertificateParser)
    requires AllNarrow(buf) && Header(buf, pos) == Done(tlv)
    ensures !Visit(buf, tlv, index, found, x509).Overflowed?
  {
    hide AllNarrow, ParseTlv, AlgorithmAt, EContentInfo, CertificateAt, SignerAlgorithm;
    NarrowHeader(buf, pos, tlv);
    NarrowOid(buf, tlv.contentStart);
    NarrowEContentInfo(buf, tlv.contentStart, tlv.contentLength);
    NarrowCertificate(buf, tlv.contentStart, x509);
    if Header(buf, tlv.contentStart).Done? {
      var signer := Header(buf, tlv.contentStart).value;
      NarrowHeader(buf, tlv.contentStart, signer);
      NarrowSignerAlgorithm(buf, signer.contentStart, signer.contentLength);
    }
  }

  lemma {:induction false} NarrowSignedData(buf: Buffer, pos: nat, end: nat, index: nat, found: Found, x509: CertificateParser)
    requires AllNarrow(buf)
    ensures !SignedDataWalk(buf, pos, end, index, found, x509).Overflowed?
    decreases end - pos
  {
    hide AllNarrow, ParseTlv, Visit;
    if pos < end && Header(buf, pos).Done? {
      var tlv := Header(buf, pos).value;
      NarrowHeader(buf, pos, tlv);
      NarrowVisit(buf, pos, tlv, index, found, x509);
      var visited := Visit(buf, tlv, index, found, x509);
      if visited.Done? {
        NarrowSignedData(buf, tlv.End(), end, index + 1, visited.value, x509);
      }
    }
  }

  /** Length fields of at most seven bytes never make the reader overflow. */
  lemma NarrowReaderNeverOverflows(sod: Buffer, x509: CertificateParser)
    requires AllNarrow(sod)
    ensures !ParseSod(sod, x509).Overflowed?
  {
    hide AllNarrow, ParseTlv, FindContext, SignedDataWalk, Finish;
    var start := ContentInfoStart(sod);
    if start.Done? && Header(sod, start.value).Done? {
      var outer := Header(sod, start.value).value;
      NarrowHeader(sod, start.value, outer);
      NarrowFindContext(sod, outer.contentStart, outer.End());
      var context := FindContext(sod, outer.contentStart, outer.End());
      if context.Done? && Header(sod, context.value.contentStart).Done? {
        var data := Header(sod, context.value.contentStart).value;
        NarrowHeader(sod, context.value.contentStart, data);
        NarrowSignedData(sod, data.contentStart, data.End(), 0, NOTHING, x509);
        FinishNeverPanics();
      }
    }
  }

  /** Filling in the result never panics. */
  lemma FinishNeverPanics()
    ensures forall found :: !Finish(found).Panicked()
  {
  }
}
