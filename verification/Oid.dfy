/**
 * Object identifiers: the decoder `parse_oid_raw` and the encoding of section 8.19 of ITU-T X.690.
 */
module Oid {
  import opened Bytes
  import opened Text
  import Der
  import opened Wrappers

  // ----- the decoder

  /** The later arcs: 7 bits a byte, most significant first, in a 64-bit word. */
  function DecodeArcs(bytes: seq<byte>, value: nat): seq<nat> {
    if bytes == [] then []
    else
      var shifted := value * 128 % WORD + bytes[0] % 128;
      if bytes[0] < 128 then [shifted] + DecodeArcs(bytes[1..], 0) else DecodeArcs(bytes[1..], shifted)
  }

  function DecodeOid(bytes: seq<byte>): seq<nat>
    requires bytes != []
  {
    [bytes[0] / 40, bytes[0] % 40] + DecodeArcs(bytes[1..], 0)
  }

  function ParseOidRaw(bytes: seq<byte>): string {
    if bytes == [] then "" else Dotted(DecodeOid(bytes))
  }

  method ReadOid(bytes: seq<byte>) returns (text: string)
    ensures text == ParseOidRaw(bytes)
  {
    if bytes == [] {
      return "";
    }
    var parts: seq<nat> := [bytes[0] / 40, bytes[0] % 40];
    var value: nat := 0;
    for i := 1 to |bytes|
      invariant parts + DecodeArcs(bytes[i..], value) == DecodeOid(bytes)
    {
      assert bytes[i..][1..] == bytes[i + 1..];
      value := value * 128 % WORD + bytes[i] % 128;
      if bytes[i] < 128 {
        parts := parts + [value];
        value := 0;
      }
    }
    assert parts + [] == parts;
    return Dotted(parts);
  }

  /** `parse_oid_bytes`: an OBJECT IDENTIFIER with its header. */
  function ParseOidBytes(bytes: Buffer): Outcome<string> {
    match Der.ParseTlv(bytes, 0)
    case None => Failed
    case Some(tlv) =>
      if tlv.tag != 0x06 then Failed
      else if tlv.End() >= WORD then Overflowed
      else if tlv.End() <= |bytes| then Done(ParseOidRaw(bytes[tlv.contentStart..tlv.End()]))
      else OutOfRange
  }

  // ----- the encoding

  /** All digits of base 128 but the last, each with its continuation bit. */
  function Continued(n: nat): seq<byte> {
    if n == 0 then [] else Continued(n / 128) + [128 + n % 128]
  }

  /** One subidentifier in the fewest bytes. */
  function EncodeArc(n: nat): (bytes: seq<byte>)
    ensures bytes != []
  {
    Continued(n / 128) + [n % 128]
  }

  function EncodeArcs(arcs: seq<nat>): seq<byte> {
    if arcs == [] then [] else EncodeArc(arcs[0]) + EncodeArcs(arcs[1..])
  }

  /** Object identifiers as X.660 allows them: a second arc below 40 under the roots 0 and 1. */
  predicate IsOid(arcs: seq<nat>) {
    |arcs| >= 2 && arcs[0] <= 2 && (arcs[0] < 2 ==> arcs[1] < 40)
  }

  /** The contents octets: the first two arcs share a subidentifier. */
  function EncodeOid(arcs: seq<nat>): (bytes: seq<byte>)
    requires IsOid(arcs)
    ensures bytes != []
  {
    EncodeArc(40 * arcs[0] + arcs[1]) + EncodeArcs(arcs[2..])
  }

  // ----- the round trip, and where it stops

  function Wrapped(arcs: seq<nat>): (w: seq<nat>)
    ensures |w| == |arcs| && forall i :: 0 <= i < |arcs| ==> w[i] == arcs[i] % WORD
  {
    seq(|arcs|, i requires 0 <= i < |arcs| => arcs[i] % WORD)
  }

  lemma SeptetStep(n: nat)
    ensures n / 128 % WORD * 128 % WORD + n % 128 == n % WORD
    ensures (128 + n % 128) % 128 == n % 128
  {
    Der.WordShift(n / 128, 128, n % 128);
  }

  /** One byte with its continuation bit moves the value on by a septet. */
  lemma DecodeOneMore(n: nat, bytes: seq<byte>)
    requires bytes != [] && bytes[0] == 128 + n % 128
    ensures DecodeArcs(bytes, n / 128 % WORD) == DecodeArcs(bytes[1..], n % WORD)
  {
    SeptetStep(n);
  }

  lemma {:induction false} DecodeContinued(n: nat, rest: seq<byte>)
    ensures DecodeArcs(Continued(n) + rest, 0) == DecodeArcs(rest, n % WORD)
  {
    if n == 0 {
      assert Continued(n) + rest == rest;
    } else {
      var last: byte := 128 + n % 128;
      var more := [last] + rest;
      assert Continued(n) + rest == Continued(n / 128) + more;
      hide DecodeArcs, Continued;
      DecodeContinued(n / 128, more);
      DecodeOneMore(n, more);
      assert more[1..] == rest;
    }
  }

  lemma DecodeLast(n: nat, bytes: seq<byte>)
    requires bytes != [] && bytes[0] == n % 128
    ensures DecodeArcs(bytes, n / 128 % WORD) == [n % WORD] + DecodeArcs(bytes[1..], 0)
  {
    SeptetStep(n);
  }

  lemma DecodeArc(n: nat, rest: seq<byte>)
    ensures DecodeArcs(EncodeArc(n) + rest, 0) == [n % WORD] + DecodeArcs(rest, 0)
  {
    var last: byte := n % 128;
    assert EncodeArc(n) + rest == Continued(n / 128) + ([last] + rest);
    hide DecodeArcs, Continued, EncodeArc;
    DecodeContinued(n / 128, [last] + rest);
    DecodeLast(n, [last] + rest);
    assert ([last] + rest)[1..] == rest;
  }

  /** Every later arc comes back modulo 2^64. */
  lemma {:induction false} DecodeEncodedArcs(arcs: seq<nat>)
    ensures DecodeArcs(EncodeArcs(arcs), 0) == Wrapped(arcs)
  {
    if arcs == [] {
    } else {
      DecodeArc(arcs[0], EncodeArcs(arcs[1..]));
      DecodeEncodedArcs(arcs[1..]);
      assert Wrapped(arcs) == [arcs[0] % WORD] + Wrapped(arcs[1..]);
    }
  }

  /** The number of any septets, fewest or not. */
  function Septets(bytes: seq<byte>): nat {
    if bytes == [] then 0 else 128 * Septets(bytes[..|bytes| - 1]) + bytes[|bytes| - 1] % 128
  }

  lemma SeptetsLast(head: seq<byte>, last: byte)
    ensures Septets(head + [last]) == 128 * Septets(head) + last % 128
    ensures Septets(head + [last]) / 128 == Septets(head) && Septets(head + [last]) % 128 == last % 128
  {
    assert (head + [last])[..|head|] == head;
  }

  lemma {:induction false} SeptetsContinue(head: seq<byte>, rest: seq<byte>)
    requires forall i :: 0 <= i < |head| ==> head[i] >= 128
    ensures DecodeArcs(head + rest, 0) == DecodeArcs(rest, Septets(head) % WORD)
  {
    if head == [] {
      assert head + rest == rest;
    } else {
      hide DecodeArcs, Septets;
      var init, last := head[..|head| - 1], head[|head| - 1];
      var more := [last] + rest;
      assert head == init + [last];
      SeptetsLast(init, last);
      SeptetsContinue(init, more);
      assert init + more == head + rest;
      DecodeOneMore(Septets(head), more);
      assert more[1..] == rest;
    }
  }

  /** Septets make one arc, whichever encoding they come from. */
  lemma SeptetsDecode(head: seq<byte>, last: byte, rest: seq<byte>)
    requires last < 128 && forall i :: 0 <= i < |head| ==> head[i] >= 128
    ensures DecodeArcs(head + ([last] + rest), 0) == [Septets(head + [last]) % WORD] + DecodeArcs(rest, 0)
  {
    hide DecodeArcs, Septets;
    var more := [last] + rest;
    SeptetsContinue(head, more);
    SeptetsLast(head, last);
    assert more[1..] == rest;
    DecodeLast(Septets(head + [last]), more);
  }

  /** An arc that is not finished is dropped. */
  lemma UnfinishedArcIsDropped(head: seq<byte>)
    requires forall i :: 0 <= i < |head| ==> head[i] >= 128
    ensures DecodeArcs(head, 0) == []
  {
    SeptetsContinue(head, []);
    assert head + [] == head;
  }

  lemma WrappedIsIdentity(arcs: seq<nat>)
    ensures Wrapped(arcs) == arcs <==> forall i :: 0 <= i < |arcs| ==> arcs[i] < WORD
  {
    if Wrapped(arcs) == arcs {
      forall i | 0 <= i < |arcs|
        ensures arcs[i] < WORD
      {
        assert Wrapped(arcs)[i] == arcs[i];
      }
    }
  }

  // ----- what the decoder prints

  /** The number that the first two arcs share. */
  function Head(arcs: seq<nat>): nat
    requires IsOid(arcs)
  {
    40 * arcs[0] + arcs[1]
  }

  /** The most significant digit of base 128, and the number without it. */
  function Leading(n: nat): (d: nat)
    ensures d < 128 && (n > 0 ==> d > 0)
  {
    if n < 128 then n else Leading(n / 128)
  }

  function Low(n: nat): nat {
    if n < 128 then 0 else 128 * Low(n / 128) + n % 128
  }

  /** The decoder splits the first byte at 40; what is left of a longer head becomes an arc of its own. */
  function Reported(arcs: seq<nat>): seq<nat>
    requires IsOid(arcs)
  {
    var head := Head(arcs);
    if head < 128 then [head / 40, head % 40] + Wrapped(arcs[2..])
    else
      var first := 128 + Leading(head);
      [first / 40, first % 40, Low(head) % WORD] + Wrapped(arcs[2..])
  }

  lemma {:induction false} ContinuedLow(n: nat, rest: seq<byte>)
    requires n > 0
    ensures Continued(n) != [] && Continued(n)[0] == 128 + Leading(n)
    ensures DecodeArcs(Continued(n)[1..] + rest, 0) == DecodeArcs(rest, Low(n) % WORD)
  {
    if n < 128 {
      assert Continued(0) == [];
      assert Continued(n) == [128 + n];
      assert Continued(n)[1..] + rest == rest;
    } else {
      var last: byte := 128 + n % 128;
      var more := [last] + rest;
      ContinuedLow(n / 128, more);
      assert Continued(n)[1..] + rest == Continued(n / 128)[1..] + more;
      LowDigits(n);
      hide DecodeArcs, Continued, Leading, Low;
      DecodeOneMore(Low(n), more);
      assert more[1..] == rest;
    }
  }

  lemma LowDigits(n: nat)
    requires n >= 128
    ensures Low(n) / 128 == Low(n / 128) && Low(n) % 128 == n % 128 && Leading(n) == Leading(n / 128)
  {
  }

  lemma LongHead(head: nat, rest: seq<byte>)
    requires head >= 128
    ensures EncodeArc(head)[0] == 128 + Leading(head)
    ensures DecodeArcs(EncodeArc(head)[1..] + rest, 0) == [Low(head) % WORD] + DecodeArcs(rest, 0)
  {
    hide DecodeArcs, Continued, Leading, Low;
    var last: byte := head % 128;
    var more := [last] + rest;
    ContinuedLow(head / 128, more);
    assert EncodeArc(head)[1..] + rest == Continued(head / 128)[1..] + more;
    LowDigits(head);
    DecodeLast(Low(head), more);
    assert more[1..] == rest;
  }

  lemma DecodesAsReported(arcs: seq<nat>)
    requires IsOid(arcs)
    ensures DecodeOid(EncodeOid(arcs)) == Reported(arcs)
  {
    var head, later := Head(arcs), arcs[2..];
    var first, rest := EncodeArc(head), EncodeArcs(later);
    assert EncodeOid(arcs) == first + rest;
    assert (first + rest)[1..] == first[1..] + rest;
    DecodeEncodedArcs(later);
    if head < 128 {
      ShortHead(head);
      assert first[1..] + rest == rest;
    } else {
      LongHead(head, rest);
    }
    hide DecodeArcs, EncodeArc, EncodeArcs, Leading, Low;
  }

  lemma ShortHead(head: nat)
    requires head < 128
    ensures EncodeArc(head) == [head]
  {
    assert Continued(0) == [];
  }

  /** The condition under which two first subidentifiers are reported alike. */
  predicate SameHead(a: seq<nat>, b: seq<nat>)
    requires IsOid(a) && IsOid(b)
  {
    || a[..2] == b[..2]
    || (&& Head(a) >= 128 && Head(b) >= 128
        && Leading(Head(a)) == Leading(Head(b)) && Low(Head(a)) % WORD == Low(Head(b)) % WORD)
  }

  lemma HeadIsInjective(a: seq<nat>, b: seq<nat>)
    requires IsOid(a) && IsOid(b)
    ensures Head(a) == Head(b) <==> a[..2] == b[..2]
  {
    if a[..2] == b[..2] {
      assert a[0] == a[..2][0] && a[1] == a[..2][1] && b[0] == b[..2][0] && b[1] == b[..2][1];
    }
  }

  lemma SplitAtForty(x: nat, y: nat)
    ensures x / 40 == y / 40 && x % 40 == y % 40 <==> x == y
  {
  }

  /** The list that starts with a first byte, split at 40, and has `p` in it if the byte is a long head's. */
  function Listed(first: nat, p: nat, later: seq<nat>): seq<nat> {
    [first / 40, first % 40] + ((if first < 128 then [] else [p]) + later)
  }

  lemma ListedAlikeIff(f: nat, p: nat, x: seq<nat>, g: nat, q: nat, y: seq<nat>)
    ensures Listed(f, p, x) == Listed(g, q, y) <==> f == g && (f >= 128 ==> p == q) && x == y
  {
    SplitAtForty(f, g);
    var a, b := Listed(f, p, x), Listed(g, q, y);
    assert a[0] == f / 40 && a[1] == f % 40 && b[0] == g / 40 && b[1] == g % 40;
    if f == g {
      var u, v := (if f < 128 then [] else [p]) + x, (if g < 128 then [] else [q]) + y;
      PrefixCancels([f / 40, f % 40], u, v);
      if f < 128 {
        assert u == x && v == y;
      } else {
        FirstCancels(p, x, q, y);
      }
    }
  }

  /** The first byte of the encoded head. */
  function FirstByte(head: nat): nat {
    if head < 128 then head else 128 + Leading(head)
  }

  lemma ReportedIsListed(arcs: seq<nat>)
    requires IsOid(arcs)
    ensures Reported(arcs) == Listed(FirstByte(Head(arcs)), Low(Head(arcs)) % WORD, Wrapped(arcs[2..]))
    ensures FirstByte(Head(arcs)) < 128 <==> Head(arcs) < 128
  {
    hide Wrapped, Leading, Low;
    var first, later := FirstByte(Head(arcs)), Wrapped(arcs[2..]);
    assert [] + later == later;
    assert [first / 40, first % 40] + ([Low(Head(arcs)) % WORD] + later)
        == [first / 40, first % 40, Low(Head(arcs)) % WORD] + later;
  }

  lemma ReportedAlikeIff(a: seq<nat>, b: seq<nat>)
    requires IsOid(a) && IsOid(b)
    ensures Reported(a) == Reported(b) <==> SameHead(a, b) && Wrapped(a[2..]) == Wrapped(b[2..])
  {
    HeadIsInjective(a, b);
    hide Wrapped, Leading, Low, Head, Reported, Listed;
    ReportedIsListed(a);
    ReportedIsListed(b);
    ListedAlikeIff(FirstByte(Head(a)), Low(Head(a)) % WORD, Wrapped(a[2..]),
                   FirstByte(Head(b)), Low(Head(b)) % WORD, Wrapped(b[2..]));
  }

  lemma PrefixCancels<T>(prefix: seq<T>, x: seq<T>, y: seq<T>)
    ensures prefix + x == prefix + y <==> x == y
  {
    assert (prefix + x)[|prefix|..] == x && (prefix + y)[|prefix|..] == y;
  }

  lemma FirstCancels<T>(p: T, x: seq<T>, q: T, y: seq<T>)
    ensures [p] + x == [q] + y <==> p == q && x == y
  {
    assert ([p] + x)[0] == p && ([q] + y)[0] == q;
    assert ([p] + x)[1..] == x && ([q] + y)[1..] == y;
  }

  /**
   * When two identifiers print alike: their later arcs agree modulo 2^64, and so do their first two
   * arcs, except that longer heads only show their leading digit and the rest modulo 2^64.
   */
  lemma PrintAlikeIff(a: seq<nat>, b: seq<nat>)
    requires IsOid(a) && IsOid(b)
    ensures ParseOidRaw(EncodeOid(a)) == ParseOidRaw(EncodeOid(b))
       <==> SameHead(a, b) && Wrapped(a[2..]) == Wrapped(b[2..])
  {
    hide EncodeOid, Reported, SameHead, Dotted;
    DecodesAsReported(a);
    DecodesAsReported(b);
    ReportedAlikeIff(a, b);
    if Dotted(DecodeOid(EncodeOid(a))) == Dotted(DecodeOid(EncodeOid(b))) {
      DottedInjective(DecodeOid(EncodeOid(a)), DecodeOid(EncodeOid(b)));
    }
  }

  /** Different identifiers that print alike: of a long head only the leading digit shows as such. */
  lemma LongHeadsPrintAlike()
    ensures ParseOidRaw(EncodeOid([2, 48])) == ParseOidRaw(EncodeOid([2, 16304]))
  {
    hide EncodeOid, ParseOidRaw;
    var a, b := [2, 48], [2, 16304];
    assert Head(a) == 128 && Head(b) == 16384;
    assert Low(1) == 0 && Low(128) == 0 && Low(16384) == 0;
    assert Leading(128) == 1 && Leading(16384) == Leading(128);
    assert Wrapped(a[2..]) == Wrapped(b[2..]);
    PrintAlikeIff(a, b);
  }

  /** And later arcs only count modulo 2^64. */
  lemma WideArcsPrintAlike()
    ensures ParseOidRaw(EncodeOid([1, 2, 0])) == ParseOidRaw(EncodeOid([1, 2, WORD]))
  {
    hide EncodeOid, ParseOidRaw, Leading, Low;
    var c, d := [1, 2, 0], [1, 2, WORD];
    assert c[..2] == d[..2];
    assert Wrapped(c[2..]) == Wrapped(d[2..]);
    PrintAlikeIff(c, d);
  }

  /**
   * For every object identifier: decoding its encoding prints its dotted form if and only if the
   * second arc is below 40 and every later arc fits 64 bits.
   */
  lemma OidRoundTrip(arcs: seq<nat>)
    requires IsOid(arcs)
    ensures ParseOidRaw(EncodeOid(arcs)) == Dotted(arcs)
       <==> arcs[1] < 40 && forall i :: 2 <= i < |arcs| ==> arcs[i] < WORD
  {
    hide EncodeOid, Dotted;
    DecodesAsReported(arcs);
    if Dotted(Reported(arcs)) == Dotted(arcs) {
      DottedInjective(Reported(arcs), arcs);
    }
    if arcs[1] >= 40 {
      assert Reported(arcs)[0] >= 3;
    } else {
      assert Head(arcs) / 40 == arcs[0] && Head(arcs) % 40 == arcs[1];
      SmallIsExact(arcs, Reported(arcs));
    }
  }

  lemma SmallIsExact(arcs: seq<nat>, decoded: seq<nat>)
    requires |arcs| >= 2 && decoded == [arcs[0], arcs[1]] + Wrapped(arcs[2..])
    ensures decoded == arcs <==> forall i :: 2 <= i < |arcs| ==> arcs[i] < WORD
  {
    var later := arcs[2..];
    assert arcs == [arcs[0], arcs[1]] + later;
    assert decoded[2..] == Wrapped(later);
    WrappedIsIdentity(later);
    assert forall i :: 2 <= i < |arcs| ==> arcs[i] == later[i - 2];
    assert forall i :: 0 <= i < |later| ==> later[i] == arcs[i + 2];
  }

  /** The identifiers the decoder handles. */
  predicate Decodable(arcs: seq<nat>) {
    IsOid(arcs) && arcs[1] < 40 && forall i :: 2 <= i < |arcs| ==> arcs[i] < WORD
  }

  /** Comparing the printed text with a table entry compares the entry with what is reported. */
  lemma TextComparisonIsExact(arcs: seq<nat>, entry: seq<nat>)
    requires IsOid(arcs) && entry != []
    ensures ParseOidRaw(EncodeOid(arcs)) == Dotted(entry) <==> Reported(arcs) == entry
    ensures Reported(arcs) == arcs <==> Decodable(arcs)
  {
    hide EncodeOid, Dotted, Reported;
    DecodesAsReported(arcs);
    OidRoundTrip(arcs);
    if Dotted(Reported(arcs)) == Dotted(entry) {
      DottedInjective(Reported(arcs), entry);
    }
    if Dotted(Reported(arcs)) == Dotted(arcs) {
      DottedInjective(Reported(arcs), arcs);
    }
  }

  /**
   * When the text of any identifier equals a table entry: also for identifiers that differ from the
   * entry by multiples of 2^64 in later arcs.
   */
  lemma TableMatchIff(arcs: seq<nat>, entry: seq<nat>)
    requires IsOid(arcs) && Decodable(entry)
    ensures ParseOidRaw(EncodeOid(arcs)) == Dotted(entry)
       <==> |arcs| == |entry| && arcs[..2] == entry[..2] && Wrapped(arcs[2..]) == entry[2..]
  {
    hide EncodeOid, Dotted, ParseOidRaw, Leading, Low, Wrapped;
    OidRoundTrip(entry);
    PrintAlikeIff(arcs, entry);
    WrappedIsIdentity(entry[2..]);
    assert forall i :: 0 <= i < |entry| - 2 ==> entry[2..][i] == entry[i + 2];
  }

  /** An identifier that is not the curve P-256's and still matches its entry. */
  lemma WrongArcMatchesTable()
    ensures var p256 := [1, 2, 840, 10045, 3, 1, 7];
            ParseOidRaw(EncodeOid([1, 2, 840, 10045, 3, 1, 7 + WORD])) == Dotted(p256)
  {
    var arcs, p256 := [1, 2, 840, 10045, 3, 1, 7 + WORD], [1, 2, 840, 10045, 3, 1, 7];
    assert arcs[..2] == p256[..2];
    assert Wrapped(arcs[2..]) == p256[2..];
    hide EncodeOid, Dotted, ParseOidRaw;
    TableMatchIff(arcs, p256);
  }

  /** Any other tag is an error. */
  lemma OtherTagIsRejected(bytes: Buffer, tlv: Der.Tlv)
    requires Der.ParseTlv(bytes, 0) == Some(tlv)
    ensures ParseOidBytes(bytes) == Failed <==> bytes[0] != 0x06
  {
  }

  /** The same through the header that `parse_oid_bytes` reads, with anything after it. */
  lemma OidBytesRoundTrip(arcs: seq<nat>, rest: seq<byte>)
    requires IsOid(arcs)
    requires |Der.Encode(0x06, EncodeOid(arcs)) + rest| <= MAX_SLICE
    ensures ParseOidBytes(Der.Encode(0x06, EncodeOid(arcs)) + rest) == Done(Dotted(Reported(arcs)))
  {
    hide Reported, Dotted;
    var content := EncodeOid(arcs);
    var buf: Buffer := Der.Encode(0x06, content) + rest;
    assert At(buf, 0, Der.Encode(0x06, content));
    Der.ParseInvertsEncode(buf, 0, 0x06, content);
    AtSlice(buf, Der.HeaderOf(0, 0x06, content).contentStart, content);
    DecodesAsReported(arcs);
  }
}
