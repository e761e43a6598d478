/** The RSA key size that `parse_rsa_key_size_bits` reads from a DER RSAPublicKey. */
module RsaKey {
  import opened Bytes
  import opened Wrappers
  import opened Der

  const U32 := 0x1_0000_0000

  /** One leading zero byte is dropped, if there is one. */
  function StripSign(bytes: seq<byte>): seq<byte> {
    if bytes != [] && bytes[0] == 0 then bytes[1..] else bytes
  }

  function ParseRsaKeySizeBits(key: Buffer): Outcome<nat> {
    match ParseTlv(key, 0)
    case None => Failed
    case Some(sequence) =>
      match ParseTlv(key, sequence.contentStart)
      case None => Failed
      case Some(modulus) =>
        if modulus.tag != 0x02 then Failed
        else if modulus.End() >= WORD then Overflowed
        else if modulus.End() > |key| then OutOfRange
        else
          var size := |StripSign(key[modulus.contentStart..modulus.End()])| * 8;
          if size < WORD then Done(size % U32) else Overflowed
  }

  // ----- the encoding: an INTEGER in the fewest two's complement bytes (section 8.3 of X.690)

  function IntegerContent(n: nat): seq<byte> {
    var digits := BigEndian(n);
    if digits == [] || digits[0] >= 0x80 then [0] + digits else digits
  }

  /** RSAPublicKey ::= SEQUENCE { modulus INTEGER, publicExponent INTEGER } */
  function EncodeRsaPublicKey(n: nat, e: nat): seq<byte> {
    Encode(0x30, Encode(0x02, IntegerContent(n)) + Encode(0x02, IntegerContent(e)))
  }

  lemma StripSignInverts(n: nat)
    requires n > 0
    ensures StripSign(IntegerContent(n)) == BigEndian(n)
  {
    BigEndianMinimal(n);
  }

  /** Any RSAPublicKey: `rest` is what follows the modulus. */
  function KeyOf(content: seq<byte>, rest: seq<byte>): seq<byte> {
    Encode(0x30, Encode(0x02, content) + rest)
  }

  lemma ModulusFound(key: Buffer, content: seq<byte>, rest: seq<byte>) returns (sequence: Tlv, modulus: Tlv)
    requires key == KeyOf(content, rest)
    ensures ParseTlv(key, 0) == Some(sequence)
    ensures ParseTlv(key, sequence.contentStart) == Some(modulus)
    ensures modulus.tag == 0x02 && modulus.contentLength == |content|
    ensures At(key, modulus.contentStart, content)
  {
    var first := Encode(0x02, content);
    ParseInvertsEncode(key, 0, 0x30, first + rest);
    sequence := HeaderOf(0, 0x30, first + rest);
    AtConcat(key, sequence.contentStart, first, rest);
    ParseInvertsEncode(key, sequence.contentStart, 0x02, content);
    modulus := HeaderOf(sequence.contentStart, 0x02, content);
  }

  /** All bytes but one leading zero. */
  function SizeWithoutSign(content: seq<byte>): nat {
    if content != [] && content[0] == 0 then |content| - 1 else |content|
  }

  lemma SizeOfFoundModulus(key: Buffer, sequence: Tlv, modulus: Tlv, content: seq<byte>)
    requires ParseTlv(key, 0) == Some(sequence)
    requires ParseTlv(key, sequence.contentStart) == Some(modulus)
    requires modulus.tag == 0x02 && modulus.contentLength == |content|
    requires At(key, modulus.contentStart, content)
    requires SizeWithoutSign(content) * 8 < WORD
    ensures ParseRsaKeySizeBits(key) == Done(SizeWithoutSign(content) * 8 % U32)
  {
    hide ParseTlv;
    AtSlice(key, modulus.contentStart, content);
  }

  /** Whatever bytes stand for the modulus: eight bits for each but one leading zero, cut to 32 bits. */
  lemma SizeOfAnyModulus(key: Buffer, content: seq<byte>, rest: seq<byte>)
    requires key == KeyOf(content, rest)
    requires SizeWithoutSign(content) * 8 < WORD
    ensures ParseRsaKeySizeBits(key) == Done(SizeWithoutSign(content) * 8 % U32)
  {
    var sequence, modulus := ModulusFound(key, content, rest);
    SizeOfFoundModulus(key, sequence, modulus, content);
  }

  /** A first element with another tag is an error. */
  lemma OtherTagIsRejected(key: Buffer, sequence: Tlv, first: Tlv)
    requires ParseTlv(key, 0) == Some(sequence) && ParseTlv(key, sequence.contentStart) == Some(first)
    ensures ParseRsaKeySizeBits(key) == Failed <==> key[sequence.contentStart] != 0x02
  {
    hide StripSign;
  }

  /** The reported size is eight times the modulus's bytes, cut to 32 bits. */
  lemma SizeOfEncodedKey(key: Buffer, n: nat, e: nat)
    requires n > 0 && key == EncodeRsaPublicKey(n, e)
    requires |BigEndian(n)| * 8 < WORD
    ensures ParseRsaKeySizeBits(key) == Done(|BigEndian(n)| * 8 % U32)
  {
    hide ParseRsaKeySizeBits;
    StripSignInverts(n);
    SizeOfAnyModulus(key, IntegerContent(n), Encode(0x02, IntegerContent(e)));
  }

  /** `bits` is the bit length of `n`. */
  ghost predicate IsBitLength(n: nat, bits: nat) {
    bits > 0 && Pow(2, bits - 1) <= n < Pow(2, bits)
  }

  lemma PowOrder(base: nat, a: nat, b: nat)
    requires base > 0 && Pow(base, a) < Pow(base, b)
    ensures a < b
  {
    if b <= a {
      PowMonotone(base, b, a);
    }
  }

  lemma BytesBound(n: nat)
    requires n > 0
    ensures BigEndian(n) != []
    ensures Pow(2, 8 * |BigEndian(n)| - 8) <= n < Pow(2, 8 * |BigEndian(n)|)
  {
    BigEndianMinimal(n);
    var k := |BigEndian(n)|;
    PowOfBytes(k);
    PowOfBytes(k - 1);
    assert 8 * (k - 1) == 8 * k - 8;
  }

  /**
   * For every positive modulus, with a leading sign byte or without: the result bounds the modulus
   * from both sides exactly when the modulus has fewer than 2^29 bytes.
   */
  lemma KeySizeBoundsModulus(key: Buffer, n: nat, e: nat)
    requires n > 0 && key == EncodeRsaPublicKey(n, e)
    requires |BigEndian(n)| * 8 < WORD
    ensures ParseRsaKeySizeBits(key).Done?
    ensures |BigEndian(n)| < 0x2000_0000 <==>
            var r := ParseRsaKeySizeBits(key).value; r >= 8 && Pow(2, r - 8) <= n < Pow(2, r)
  {
    hide *;
    SizeOfEncodedKey(key, n, e);
    BytesBound(n);
    CutSizeBounds(n, |BigEndian(n)|);
  }

  lemma CutSizeBounds(n: nat, k: nat)
    requires k > 0 && Pow(2, 8 * k - 8) <= n < Pow(2, 8 * k)
    ensures var r := k * 8 % U32; k < 0x2000_0000 <==> r >= 8 && Pow(2, r - 8) <= n < Pow(2, r)
  {
    if k < 0x2000_0000 {
      assert k * 8 % U32 == 8 * k;
    } else {
      var r := k * 8 % U32;
      assert r <= 8 * k - 8;
      PowMonotone(2, r, 8 * k - 8);
    }
  }

  /** The result is the bit length rounded up to whole bytes: exact for a multiple of eight. */
  lemma KeySizeIsRoundedBitLength(key: Buffer, n: nat, e: nat, bits: nat)
    requires n > 0 && key == EncodeRsaPublicKey(n, e)
    requires IsBitLength(n, bits) && bits < U32 - 8
    ensures ParseRsaKeySizeBits(key) == Done((bits + 7) / 8 * 8)
  {
    hide *;
    BytesBound(n);
    BitLengthInBytes(n, bits, |BigEndian(n)|);
    RoundedSizeFits(bits, |BigEndian(n)|);
    SizeOfEncodedKey(key, n, e);
  }

  lemma RoundedSizeFits(bits: nat, k: nat)
    requires bits < U32 - 8 && 8 * k == (bits + 7) / 8 * 8
    ensures k * 8 < WORD && k * 8 % U32 == (bits + 7) / 8 * 8
  {
  }

  lemma RoundedUp(bits: nat, k: nat)
    requires k > 0 && 8 * k - 8 < bits <= 8 * k
    ensures 8 * k == (bits + 7) / 8 * 8
  {
  }

  lemma BitLengthInBytes(n: nat, bits: nat, k: nat)
    requires IsBitLength(n, bits)
    requires k > 0 && Pow(2, 8 * k - 8) <= n < Pow(2, 8 * k)
    ensures 8 * k == (bits + 7) / 8 * 8
  {
    hide Pow;
    PowOrder(2, 8 * k - 8, bits);
    PowOrder(2, bits - 1, 8 * k);
    RoundedUp(bits, k);
  }
}
