/** When the loops of the SOD reader end in a build without overflow checks. */
module ReleaseEnds {
  import opened Bytes
  import opened Wrappers
  import opened Der
  import opened Walk
  import opened Sod
  import opened Release

  // ----- more rounds do not change a result

  lemma {:induction false} FindContextGrows(buf: Buffer, pos: nat, end: nat, rounds: nat, more: nat)
    requires rounds <= more && FindContextW(buf, pos, end, rounds) != Running
    ensures FindContextW(buf, pos, end, more) == FindContextW(buf, pos, end, rounds)
    decreases rounds
  {
    hide WrappedNext, Header;
    if pos < end && Header(buf, pos).Done? && Header(buf, pos).value.tag != 0xa0 {
      FindContextGrows(buf, WrappedNext(Header(buf, pos).value), end, rounds - 1, more - 1);
    }
  }

  lemma {:induction false} SignerWalkGrows(buf: Buffer, pos: nat, end: nat, index: nat, rounds: nat, more: nat)
    requires rounds <= more && SignerWalkW(buf, pos, end, index, rounds) != Running
    ensures SignerWalkW(buf, pos, end, index, more) == SignerWalkW(buf, pos, end, index, rounds)
    decreases rounds
  {
    hide WrappedNext, Header, OidAtW;
    if pos < end && Header(buf, pos).Done? && !(Header(buf, pos).value.tag == 0x30 && index >= 3) {
      SignerWalkGrows(buf, WrappedNext(Header(buf, pos).value), end, index + 1, rounds - 1, more - 1);
    }
  }

  lemma VisitGrows(buf: Buffer, tlv: Tlv, index: nat, found: Found, x509: CertificateParser, rounds: nat, more: nat)
    requires rounds <= more && VisitW(buf, tlv, index, found, x509, rounds) != Running
    ensures VisitW(buf, tlv, index, found, x509, more) == VisitW(buf, tlv, index, found, x509, rounds)
  {
    hide Header, AlgorithmAtW, FindContextW, SignerWalkW, CertificateAtW, ContentW, LdsHashOidW;
    if index == 2 && tlv.tag == 0x30 {
      FindContextGrows(buf, tlv.contentStart, (tlv.contentStart + tlv.contentLength) % WORD, rounds, more);
    } else if index >= 4 && tlv.tag == 0x31 && Header(buf, tlv.contentStart).Done? {
      var signer := Header(buf, tlv.contentStart).value;
      SignerWalkGrows(buf, signer.contentStart, (signer.contentStart + signer.contentLength) % WORD, 0, rounds, more);
    }
  }

  lemma {:induction false} SignedDataGrows(buf: Buffer, pos: nat, end: nat, index: nat, found: Found, x509: CertificateParser,
                                           rounds: nat, inner: nat, more: nat, innerMore: nat)
    requires rounds <= more && inner <= innerMore
    requires SignedDataWalkW(buf, pos, end, index, found, x509, rounds, inner) != Running
    ensures SignedDataWalkW(buf, pos, end, index, found, x509, more, innerMore)
         == SignedDataWalkW(buf, pos, end, index, found, x509, rounds, inner)
    decreases rounds
  {
    hide WrappedNext, Header, VisitW;
    if pos < end && Header(buf, pos).Done? {
      var tlv := Header(buf, pos).value;
      var visited := VisitW(buf, tlv, index, found, x509, inner);
      VisitGrows(buf, tlv, index, found, x509, inner, innerMore);
      if !visited.IsFailure() {
        SignedDataGrows(buf, WrappedNext(tlv), end, index + 1, visited.Extract(), x509, rounds - 1, inner, more - 1, innerMore);
      }
    }
  }

  lemma ReaderGrows(sod: Buffer, x509: CertificateParser, rounds: nat, more: nat)
    requires rounds <= more && ParseSodW(sod, x509, rounds) != Running
    ensures ParseSodW(sod, x509, more) == ParseSodW(sod, x509, rounds)
  {
    hide WrappedNext, Header, FindContextW, SignedDataWalkW, Finish, ContentInfoStart;
    var start := ContentInfoStart(sod);
    if start.Done? && Header(sod, start.value).Done? {
      var outer := Header(sod, start.value).value;
      FindContextGrows(sod, outer.contentStart, WrappedNext(outer), rounds, more);
      var context := FindContextW(sod, outer.contentStart, WrappedNext(outer), rounds);
      if !context.IsFailure() && Header(sod, context.Extract().contentStart).Done? {
        var data := Header(sod, context.Extract().contentStart).value;
        SignedDataGrows(sod, data.contentStart, WrappedNext(data), 0, NOTHING, x509, rounds, rounds, more, more);
      }
    }
  }

  // ----- the search for [0]

  predicate IsContext(tlv: Tlv) {
    tlv.tag == 0xa0
  }

  /** The checked search overflows exactly when its loop comes to such a sum. */
  lemma {:induction false} FindContextOverflowsIff(buf: Buffer, pos: nat, end: nat)
    ensures FindContext(buf, pos, end).Overflowed? <==> Overflows(buf, pos, end, IsContext)
    decreases end - pos
  {
    hide ParseTlv;
    if pos < end && ParseTlv(buf, pos).Some? {
      var tlv := ParseTlv(buf, pos).value;
      if tlv.End() < WORD {
        FindContextOverflowsIff(buf, tlv.End(), end);
      }
    }
  }

  /** The wrapping search is still running exactly while its loop stands at a header. */
  lemma {:induction false} FindContextRunsIff(buf: Buffer, pos: nat, end: nat, rounds: nat)
    ensures FindContextW(buf, pos, end, rounds) == Running <==> WrappedAfter(buf, pos, end, IsContext, rounds).Some?
    decreases rounds
  {
    hide ParseTlv, WrappedNext;
    if pos < end && ParseTlv(buf, pos).Some? && rounds > 0 {
      FindContextRunsIff(buf, WrappedNext(ParseTlv(buf, pos).value), end, rounds - 1);
    }
  }

  /** After as many rounds as the buffer has bytes nothing changes any more. */
  lemma FindContextSettles(buf: Buffer, pos: nat, end: nat, rounds: nat)
    requires rounds >= |buf|
    ensures FindContextW(buf, pos, end, rounds) == FindContextW(buf, pos, end, |buf|)
  {
    hide FindContextW, WrappedAfter;
    if FindContextW(buf, pos, end, |buf|) == Running {
      FindContextRunsIff(buf, pos, end, |buf|);
      NeverEnds(buf, pos, end, IsContext, rounds);
      FindContextRunsIff(buf, pos, end, rounds);
    } else {
      FindContextGrows(buf, pos, end, |buf|, rounds);
    }
  }

  lemma FindContextEndsIff(buf: Buffer, pos: nat, end: nat)
    ensures (exists rounds: nat :: FindContextW(buf, pos, end, rounds) != Running)
       <==> FindContextW(buf, pos, end, |buf|) != Running
  {
    hide FindContextW;
    if rounds: nat :| FindContextW(buf, pos, end, rounds) != Running {
      FindContextGrows(buf, pos, end, rounds, if rounds < |buf| then |buf| else rounds);
      FindContextSettles(buf, pos, end, if rounds < |buf| then |buf| else rounds);
    }
  }

  // ----- the SignerInfo loop

  predicate IsSequence(tlv: Tlv) {
    tlv.tag == 0x30
  }

  /** From the fourth field on, where the loop stands is all that matters. */
  lemma {:induction false} SignerWalkRunsIff(buf: Buffer, pos: nat, end: nat, index: nat, rounds: nat)
    requires index >= 3
    ensures SignerWalkW(buf, pos, end, index, rounds) == Running <==> WrappedAfter(buf, pos, end, IsSequence, rounds).Some?
    decreases rounds
  {
    hide ParseTlv, WrappedNext, OidAtW;
    if pos < end && ParseTlv(buf, pos).Some? && rounds > 0 {
      SignerWalkRunsIff(buf, WrappedNext(ParseTlv(buf, pos).value), end, index + 1, rounds - 1);
    }
  }

  /** The rounds that the first fields take, at most. */
  function Early(index: nat, fields: nat): nat {
    if index < fields then fields - index else 0
  }

  lemma {:induction false} SignerWalkSettles(buf: Buffer, pos: nat, end: nat, index: nat, rounds: nat)
    requires rounds >= |buf| + Early(index, 3)
    ensures SignerWalkW(buf, pos, end, index, rounds) == SignerWalkW(buf, pos, end, index, |buf| + Early(index, 3))
    decreases Early(index, 3)
  {
    if index < 3 {
      hide WrappedNext, Header, OidAtW;
      if pos < end && Header(buf, pos).Done? {
        SignerWalkSettles(buf, WrappedNext(Header(buf, pos).value), end, index + 1, rounds - 1);
      }
    } else {
      hide SignerWalkW, WrappedAfter;
      if SignerWalkW(buf, pos, end, index, |buf|) == Running {
        SignerWalkRunsIff(buf, pos, end, index, |buf|);
        NeverEnds(buf, pos, end, IsSequence, rounds);
        SignerWalkRunsIff(buf, pos, end, index, rounds);
      } else {
        SignerWalkGrows(buf, pos, end, index, |buf|, rounds);
      }
    }
  }

  lemma SignerWalkEndsIff(buf: Buffer, pos: nat, end: nat)
    ensures (exists rounds: nat :: SignerWalkW(buf, pos, end, 0, rounds) != Running)
       <==> SignerWalkW(buf, pos, end, 0, |buf| + 3) != Running
  {
    hide SignerWalkW;
    if rounds: nat :| SignerWalkW(buf, pos, end, 0, rounds) != Running {
      var more := if rounds < |buf| + 3 then |buf| + 3 else rounds;
      SignerWalkGrows(buf, pos, end, 0, rounds, more);
      SignerWalkSettles(buf, pos, end, 0, more);
    }
  }

  // ----- the SignedData loop

  lemma VisitSettles(buf: Buffer, tlv: Tlv, index: nat, found: Found, x509: CertificateParser, rounds: nat)
    requires rounds >= |buf| + 3
    ensures VisitW(buf, tlv, index, found, x509, rounds) == VisitW(buf, tlv, index, found, x509, |buf| + 3)
  {
    hide Header, AlgorithmAtW, FindContextW, SignerWalkW, CertificateAtW, ContentW, LdsHashOidW;
    var end := (tlv.contentStart + tlv.contentLength) % WORD;
    FindContextSettles(buf, tlv.contentStart, end, rounds);
    FindContextSettles(buf, tlv.contentStart, end, |buf| + 3);
    if index >= 4 && tlv.tag == 0x31 && Header(buf, tlv.contentStart).Done? {
      var signer := Header(buf, tlv.contentStart).value;
      SignerWalkSettles(buf, signer.contentStart, (signer.contentStart + signer.contentLength) % WORD, 0, rounds);
    }
  }

  lemma {:induction false} InnerSettles(buf: Buffer, pos: nat, end: nat, index: nat, found: Found, x509: CertificateParser,
                                        rounds: nat, inner: nat)
    requires inner >= |buf| + 3
    ensures SignedDataWalkW(buf, pos, end, index, found, x509, rounds, inner)
         == SignedDataWalkW(buf, pos, end, index, found, x509, rounds, |buf| + 3)
    decreases rounds
  {
    hide WrappedNext, Header, VisitW;
    if pos < end && Header(buf, pos).Done? {
      var tlv := Header(buf, pos).value;
      VisitSettles(buf, tlv, index, found, x509, inner);
      var visited := VisitW(buf, tlv, index, found, x509, inner);
      if !visited.IsFailure() && rounds > 0 {
        InnerSettles(buf, WrappedNext(tlv), end, index + 1, visited.Extract(), x509, rounds - 1, inner);
      }
    }
  }

  /** A visit from the fifth field on that does not succeed. */
  predicate Fails(buf: Buffer, tlv: Tlv, x509: CertificateParser, inner: nat) {
    VisitW(buf, tlv, 4, NOTHING, x509, inner).IsFailure()
  }

  function FailingVisit(buf: Buffer, x509: CertificateParser, inner: nat): Stop {
    (tlv: Tlv) => Fails(buf, tlv, x509, inner)
  }

  /** From the fifth field on, whether a visit succeeds depends on its header only, and so does its failure. */
  lemma LateVisit(buf: Buffer, tlv: Tlv, index: nat, found: Found, x509: CertificateParser, inner: nat)
    requires index >= 4
    ensures VisitW(buf, tlv, index, found, x509, inner).IsFailure() <==> FailingVisit(buf, x509, inner)(tlv)
  {
    hide Header, CertificateAtW, SignerAlgorithmW;
  }

  lemma {:induction false} SignedDataRuns(buf: Buffer, pos: nat, end: nat, index: nat, found: Found, x509: CertificateParser,
                                          rounds: nat, inner: nat)
    requires index >= 4 && WrappedAfter(buf, pos, end, FailingVisit(buf, x509, inner), rounds).Some?
    ensures SignedDataWalkW(buf, pos, end, index, found, x509, rounds, inner) == Running
    decreases rounds
  {
    hide ParseTlv, WrappedNext, VisitW, FailingVisit;
    var tlv := ParseTlv(buf, pos).value;
    LateVisit(buf, tlv, index, found, x509, inner);
    if rounds > 0 {
      SignedDataRuns(buf, WrappedNext(tlv), end, index + 1, VisitW(buf, tlv, index, found, x509, inner).Extract(), x509,
                     rounds - 1, inner);
    }
  }

  /** Once its own loop has ended, more rounds change nothing, even if a visit is still running. */
  lemma {:induction false} SignedDataStops(buf: Buffer, pos: nat, end: nat, index: nat, found: Found, x509: CertificateParser,
                                           rounds: nat, more: nat, inner: nat)
    requires index >= 4 && rounds <= more && WrappedAfter(buf, pos, end, FailingVisit(buf, x509, inner), rounds).None?
    ensures SignedDataWalkW(buf, pos, end, index, found, x509, more, inner)
         == SignedDataWalkW(buf, pos, end, index, found, x509, rounds, inner)
    decreases rounds
  {
    hide ParseTlv, WrappedNext, VisitW, FailingVisit;
    if pos < end && ParseTlv(buf, pos).Some? {
      var tlv := ParseTlv(buf, pos).value;
      LateVisit(buf, tlv, index, found, x509, inner);
      var visited := VisitW(buf, tlv, index, found, x509, inner);
      if !visited.IsFailure() {
        SignedDataStops(buf, WrappedNext(tlv), end, index + 1, visited.Extract(), x509, rounds - 1, more - 1, inner);
      }
    }
  }

  lemma LateFieldsSettle(buf: Buffer, pos: nat, end: nat, index: nat, found: Found, x509: CertificateParser,
                         rounds: nat, inner: nat)
    requires index >= 4 && rounds >= |buf|
    ensures SignedDataWalkW(buf, pos, end, index, found, x509, rounds, inner)
         == SignedDataWalkW(buf, pos, end, index, found, x509, |buf|, inner)
  {
    hide SignedDataWalkW, WrappedAfter, FailingVisit;
    if WrappedAfter(buf, pos, end, FailingVisit(buf, x509, inner), |buf|).Some? {
      NeverEnds(buf, pos, end, FailingVisit(buf, x509, inner), rounds);
      SignedDataRuns(buf, pos, end, index, found, x509, |buf|, inner);
      SignedDataRuns(buf, pos, end, index, found, x509, rounds, inner);
    } else {
      SignedDataStops(buf, pos, end, index, found, x509, |buf|, rounds, inner);
    }
  }

  /** One round of the loop. */
  lemma SignedDataStep(buf: Buffer, pos: nat, end: nat, index: nat, found: Found, x509: CertificateParser,
                       rounds: nat, inner: nat, tlv: Tlv)
    requires rounds > 0 && pos < end && Header(buf, pos) == Done(tlv)
    ensures var visited := VisitW(buf, tlv, index, found, x509, inner);
            SignedDataWalkW(buf, pos, end, index, found, x509, rounds, inner)
            == if visited.IsFailure() then visited
               else SignedDataWalkW(buf, WrappedNext(tlv), end, index + 1, visited.Extract(), x509, rounds - 1, inner)
  {
    hide WrappedNext, Header, VisitW;
  }

  lemma SignedDataEnds(buf: Buffer, pos: nat, end: nat, index: nat, found: Found, x509: CertificateParser,
                       rounds: nat, inner: nat)
    requires pos >= end || !Header(buf, pos).Done?
    ensures SignedDataWalkW(buf, pos, end, index, found, x509, rounds, inner)
         == SignedDataWalkW(buf, pos, end, index, found, x509, 0, inner)
  {
    hide WrappedNext, Header, VisitW;
  }

  lemma {:induction false} SignedDataSettles(buf: Buffer, pos: nat, end: nat, index: nat, found: Found, x509: CertificateParser,
                                             rounds: nat, inner: nat)
    requires rounds >= |buf| + Early(index, 4)
    ensures SignedDataWalkW(buf, pos, end, index, found, x509, rounds, inner)
         == SignedDataWalkW(buf, pos, end, index, found, x509, |buf| + Early(index, 4), inner)
    decreases Early(index, 4)
  {
    hide SignedDataWalkW, WrappedNext, Header, VisitW;
    if index >= 4 {
      LateFieldsSettle(buf, pos, end, index, found, x509, rounds, inner);
    } else if pos < end && Header(buf, pos).Done? {
      var tlv := Header(buf, pos).value;
      SignedDataStep(buf, pos, end, index, found, x509, rounds, inner, tlv);
      SignedDataStep(buf, pos, end, index, found, x509, |buf| + Early(index, 4), inner, tlv);
      var visited := VisitW(buf, tlv, index, found, x509, inner);
      if !visited.IsFailure() {
        SignedDataSettles(buf, WrappedNext(tlv), end, index + 1, visited.Extract(), x509, rounds - 1, inner);
      }
    } else {
      SignedDataEnds(buf, pos, end, index, found, x509, rounds, inner);
      SignedDataEnds(buf, pos, end, index, found, x509, |buf| + Early(index, 4), inner);
    }
  }

  lemma SignedDataEndsIff(buf: Buffer, pos: nat, end: nat, x509: CertificateParser)
    ensures (exists rounds: nat :: SignedDataWalkW(buf, pos, end, 0, NOTHING, x509, rounds, rounds) != Running)
       <==> SignedDataWalkW(buf, pos, end, 0, NOTHING, x509, |buf| + 4, |buf| + 4) != Running
  {
    hide SignedDataWalkW;
    if rounds: nat :| SignedDataWalkW(buf, pos, end, 0, NOTHING, x509, rounds, rounds) != Running {
      var more := if rounds < |buf| + 4 then |buf| + 4 else rounds;
      SignedDataGrows(buf, pos, end, 0, NOTHING, x509, rounds, rounds, more, more);
      BothSettle(buf, pos, end, x509, more);
    }
  }

  lemma BothSettle(buf: Buffer, pos: nat, end: nat, x509: CertificateParser, rounds: nat)
    requires rounds >= |buf| + 4
    ensures SignedDataWalkW(buf, pos, end, 0, NOTHING, x509, rounds, rounds)
         == SignedDataWalkW(buf, pos, end, 0, NOTHING, x509, |buf| + 4, |buf| + 4)
  {
    hide SignedDataWalkW;
    InnerSettles(buf, pos, end, 0, NOTHING, x509, rounds, rounds);
    InnerSettles(buf, pos, end, 0, NOTHING, x509, |buf| + 4, |buf| + 4);
    SignedDataSettles(buf, pos, end, 0, NOTHING, x509, rounds, |buf| + 3);
  }

  // ----- the reader

  /** Whatever the reader has not done after four rounds more than the file has bytes, it never does. */
  lemma ReaderSettles(sod: Buffer, x509: CertificateParser, rounds: nat)
    requires rounds >= |sod| + 4
    ensures ParseSodW(sod, x509, rounds) == ParseSodW(sod, x509, |sod| + 4)
  {
    hide WrappedNext, Header, FindContextW, SignedDataWalkW, Finish, ContentInfoStart;
    var start := ContentInfoStart(sod);
    if start.Done? && Header(sod, start.value).Done? {
      var outer := Header(sod, start.value).value;
      FindContextSettles(sod, outer.contentStart, WrappedNext(outer), rounds);
      FindContextSettles(sod, outer.contentStart, WrappedNext(outer), |sod| + 4);
      var context := FindContextW(sod, outer.contentStart, WrappedNext(outer), rounds);
      if !context.IsFailure() && Header(sod, context.Extract().contentStart).Done? {
        var data := Header(sod, context.Extract().contentStart).value;
        BothSettle(sod, data.contentStart, WrappedNext(data), x509, rounds);
      }
    }
  }

  /** The reader ends on a file if and only if it has ended by then, and its result is the one it has then. */
  lemma ReaderEndsIff(sod: Buffer, x509: CertificateParser)
    ensures (exists rounds: nat :: ParseSodW(sod, x509, rounds) != Running) <==> ParseSodW(sod, x509, |sod| + 4) != Running
    ensures forall rounds: nat :: ParseSodW(sod, x509, rounds) != Running ==>
              ParseSodW(sod, x509, rounds) == ParseSodW(sod, x509, |sod| + 4)
  {
    hide ParseSodW;
    forall rounds: nat | ParseSodW(sod, x509, rounds) != Running
      ensures ParseSodW(sod, x509, rounds) == ParseSodW(sod, x509, |sod| + 4)
    {
      var more := if rounds < |sod| + 4 then |sod| + 4 else rounds;
      ReaderGrows(sod, x509, rounds, more);
      ReaderSettles(sod, x509, more);
    }
  }
}
