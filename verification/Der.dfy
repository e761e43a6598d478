/**
 * Tag-length-value headers: the hand-written reader `parse_tlv` and the definite-length encoding
 * of ITU-T X.690 (sections 8.1.3 and 10.1) that it has to invert.
 */
module Der {
  import opened Bytes
  import opened Wrappers

  datatype Tlv = Tlv(offset: nat, tag: byte, contentStart: nat, contentLength: nat) {

    /** One past the last content byte, as a mathematical sum. */
    function End(): nat {
      contentStart + contentLength
    }
  }

  /** The number of length bytes that a first length byte announces. */
  function LengthBytes(first: byte): nat {
    if first > 0x80 then first - 0x80 else 0
  }

  /**
   * The header at `offset`, read without a loop: the long-form length is the number its bytes
   * denote, of which a `usize` keeps the low 64 bits.
   */
  function ParseTlv(buf: Buffer, offset: nat): (r: Option<Tlv>)
    ensures r.Some? <==> offset + 1 < |buf| && buf[offset + 1] != 0x80
                         && offset + 2 + LengthBytes(buf[offset + 1]) <= |buf|
    ensures r.Some? ==> offset + 2 <= r.value.contentStart <= |buf| && r.value.contentLength < WORD
  {
    if offset + 1 >= |buf| then None
    else
      var first := buf[offset + 1];
      var start := offset + 2 + LengthBytes(first);
      if first == 0x80 || start > |buf| then None
      else if first < 0x80 then Some(Tlv(offset, buf[offset], start, first))
      else Some(Tlv(offset, buf[offset], start, ToNat(buf[offset + 2..start]) % WORD))
  }

  /** The reader's own loop, with its shifts on a 64-bit word. */
  method ReadTlv(buf: Buffer, offset: nat) returns (r: Option<Tlv>)
    ensures r == ParseTlv(buf, offset)
  {
    if offset >= |buf| {
      return None;
    }
    var tag := buf[offset];
    var pos := offset + 1;
    if pos >= |buf| {
      return None;
    }
    var length: nat := buf[pos];
    pos := pos + 1;
    if length == 0x80 {
      return None;
    }
    if length > 0x80 {
      var numBytes := length - 0x80;
      length := 0;
      for i := 0 to numBytes
        invariant pos == offset + 2 + i <= |buf|
        invariant length == ToNat(buf[offset + 2..pos]) % WORD
      {
        if pos >= |buf| {
          return None;
        }
        ShiftInByte(buf, offset + 2, pos);
        length := length * 256 % WORD + buf[pos];
        pos := pos + 1;
      }
    }
    return Some(Tlv(offset, tag, pos, length));
  }

  /** One round of the loop: shifting a wrapped length drops only bits above the word. */
  lemma ShiftInByte(buf: Buffer, start: nat, pos: nat)
    requires start <= pos < |buf|
    ensures ToNat(buf[start..pos]) % WORD * 256 % WORD + buf[pos] == ToNat(buf[start..pos + 1]) % WORD
  {
    var all := buf[start..pos + 1];
    assert all[..|all| - 1] == buf[start..pos];
    WordShift(ToNat(buf[start..pos]), 256, buf[pos]);
  }

  /** Shifting left by whole digits and adding a digit commutes with cutting to 64 bits. */
  lemma WordShift(high: nat, base: nat, digit: nat)
    requires base == 128 || base == 256
    requires digit < base
    ensures high % WORD * base % WORD + digit == (high * base + digit) % WORD
  {
    var w := WORD / base;
    assert w * base == WORD;
    var q, r := high / WORD, high % WORD;
    var r1, r0 := r / w, r % w;
    assert r * base == r1 * WORD + r0 * base;
    assert r0 * base + digit < WORD;
    assert high * base + digit == (q * base + r1) * WORD + (r0 * base + digit);
    ModOf(q * base + r1, r0 * base + digit);
    ModOf(r1, r0 * base);
  }

  lemma ModOf(q: nat, r: nat)
    requires r < WORD
    ensures (q * WORD + r) % WORD == r
  {
  }

  // ----- the encoding

  /** Definite form; lengths that 126 bytes cannot express have no encoding. */
  function EncodeLength(n: nat): seq<byte> {
    if n < 0x80 then [n]
    else
      var digits := BigEndian(n);
      if |digits| < 0x7f then [0x80 + |digits|] + digits else []
  }

  function Encode(tag: byte, content: seq<byte>): seq<byte> {
    [tag] + EncodeLength(|content|) + content
  }

  /** The header reader's result for an encoding that stands at `p`. */
  function HeaderOf(p: nat, tag: byte, content: seq<byte>): Tlv {
    Tlv(p, tag, p + 1 + |EncodeLength(|content|)|, |content|)
  }

  /** At any offset of any buffer, the reader inverts the encoder and finds the content. */
  lemma ParseInvertsEncode(buf: Buffer, p: nat, tag: byte, content: seq<byte>)
    requires At(buf, p, Encode(tag, content))
    ensures ParseTlv(buf, p) == Some(HeaderOf(p, tag, content))
    ensures At(buf, HeaderOf(p, tag, content).contentStart, content)
    ensures HeaderOf(p, tag, content).End() == p + |Encode(tag, content)| <= |buf|
  {
    hide EncodeLength, ParseTlv;
    AtHeader(buf, p, tag, EncodeLength(|content|), content);
    ParseInvertsLength(buf, p, |content|);
  }

  lemma AtHeader(buf: seq<byte>, p: nat, tag: byte, length: seq<byte>, content: seq<byte>)
    requires At(buf, p, [tag] + length + content)
    ensures p < |buf| && buf[p] == tag
    ensures At(buf, p + 1, length) && At(buf, p + 1 + |length|, content)
  {
    AtConcat(buf, p, [tag] + length, content);
    AtConcat(buf, p, [tag], length);
    assert [tag][0] == buf[p];
  }

  lemma ParseInvertsLength(buf: Buffer, p: nat, n: nat)
    requires n <= MAX_SLICE
    requires At(buf, p + 1, EncodeLength(n)) && p < |buf|
    ensures ParseTlv(buf, p) == Some(Tlv(p, buf[p], p + 1 + |EncodeLength(n)|, n))
  {
    LengthFits(n);
    assert n > 0 ==> BigEndian(n) != [];
    hide ParseTlv, At, ToNat, BigEndian;
    if n < 0x80 {
      FirstAt(buf, p + 1, n);
      ShortForm(buf, p);
    } else {
      BigEndianInverts(n);
      ParseInvertsLongLength(buf, p, BigEndian(n), n);
    }
  }

  /** The short form: the length itself. */
  lemma ShortForm(buf: Buffer, p: nat)
    requires p + 1 < |buf| && buf[p + 1] < 0x80
    ensures ParseTlv(buf, p) == Some(Tlv(p, buf[p], p + 2, buf[p + 1]))
  {
  }

  lemma ParseInvertsLongLength(buf: Buffer, p: nat, digits: seq<byte>, n: nat)
    requires ToNat(digits) == n <= MAX_SLICE
    requires 0 < |digits| <= 8
    requires At(buf, p + 1, [0x80 + |digits|] + digits) && p < |buf|
    ensures ParseTlv(buf, p) == Some(Tlv(p, buf[p], p + 2 + |digits|, n))
  {
    hide ParseTlv, ToNat, At;
    AtConcat(buf, p + 1, [0x80 + |digits|], digits);
    FirstAt(buf, p + 1, 0x80 + |digits|);
    AtSlice(buf, p + 2, digits);
    LongForm(buf, p, |digits|);
    ModSmall(n);
  }

  lemma FirstAt(buf: seq<byte>, p: nat, b: byte)
    requires At(buf, p, [b])
    ensures p < |buf| && buf[p] == b
  {
    assert [b][0] == buf[p];
  }

  /** The long form: as many length bytes as the first one announces. */
  lemma LongForm(buf: Buffer, p: nat, k: nat)
    requires p + 2 + k <= |buf| && buf[p + 1] == 0x80 + k && 0 < k <= 8
    ensures ParseTlv(buf, p) == Some(Tlv(p, buf[p], p + 2 + k, ToNat(buf[p + 2..p + 2 + k]) % WORD))
  {
    hide ToNat;
  }

  lemma ModSmall(n: nat)
    requires n < WORD
    ensures n % WORD == n
  {
  }

  lemma LengthFits(n: nat)
    requires n <= MAX_SLICE
    ensures |BigEndian(n)| <= 8
  {
    assert Pow(256, 4) == 0x1_0000_0000 by {
      assert Pow(256, 2) == 0x1_0000;
    }
    PowAdd(256, 4, 4);
    BigEndianLength(n, 8);
  }
}
