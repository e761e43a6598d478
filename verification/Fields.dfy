/**
 * Proof and public-input buffers as lists of 32-byte field texts, written once in Rust (`main.rs`)
 * and once in JavaScript (`outer-inputs.cjs`), and Ethereum addresses cut out of such a field.
 */
module Fields {
  import opened Wrappers
  import opened Bytes
  import opened Text
  import opened Hex

  /** Two lower-case digits for each byte. */
  function BytesHex(bytes: seq<byte>): (out: string)
    ensures |out| == 2 * |bytes| && AllHex(out) && IsLower(out)
  {
    if bytes == [] then ""
    else
      var last := bytes[|bytes| - 1];
      BytesHex(bytes[..|bytes| - 1]) + [HexChar(last / 16), HexChar(last % 16)]
  }

  method BytesToHex(bytes: seq<byte>) returns (out: string)
    ensures out == BytesHex(bytes)
  {
    out := "";
    for i := 0 to |bytes|
      invariant out == BytesHex(bytes[..i])
    {
      assert bytes[..i + 1][..i] == bytes[..i];
      out := out + [HexChar(bytes[i] / 16), HexChar(bytes[i] % 16)];
    }
    assert bytes[..|bytes|] == bytes;
  }

  /** The hexadecimal text denotes the big-endian number of the bytes. */
  lemma {:induction false} BytesHexValue(bytes: seq<byte>)
    ensures HexValue(BytesHex(bytes)) == ToNat(bytes)
  {
    if bytes != [] {
      var init, last := bytes[..|bytes| - 1], bytes[|bytes| - 1];
      var all, front := BytesHex(bytes), BytesHex(init);
      BytesHexValue(init);
      TwoDigits(front, last / 16, last % 16);
      assert all == front + [HexChar(last / 16), HexChar(last % 16)];
    }
  }

  lemma TwoDigits(front: string, high: nat, low: nat)
    requires AllHex(front) && high < 16 && low < 16
    ensures HexValue(front + [HexChar(high), HexChar(low)]) == 256 * HexValue(front) + 16 * high + low
  {
    hide IsHexDigit, HexChar, DigitOf;
    var all := front + [HexChar(high), HexChar(low)];
    assert all[..|all| - 1] == front + [HexChar(high)];
    assert (front + [HexChar(high)])[..|front|] == front;
  }

  /** Reads two digits at a time. */
  function ParseHex(s: string): seq<byte>
    requires AllHex(s)
  {
    if |s| < 2 then []
    else ParseHex(s[..|s| - 2]) + [16 * DigitOf(s[|s| - 2]) + DigitOf(s[|s| - 1])]
  }

  lemma ParseTwo(front: string, high: nat, low: nat)
    requires AllHex(front) && high < 16 && low < 16
    ensures ParseHex(front + [HexChar(high), HexChar(low)]) == ParseHex(front) + [16 * high + low]
  {
    hide IsHexDigit, HexChar, DigitOf, Lower;
    var all := front + [HexChar(high), HexChar(low)];
    assert all[..|all| - 2] == front;
  }

  lemma BytesHexLast(bytes: seq<byte>)
    requires bytes != []
    ensures var last := bytes[|bytes| - 1];
            BytesHex(bytes) == BytesHex(bytes[..|bytes| - 1]) + [HexChar(last / 16), HexChar(last % 16)]
  {
    hide HexChar;
  }

  lemma NoHex()
    ensures ParseHex(BytesHex([])) == []
  {
  }

  lemma {:induction false} ParseInvertsBytesHex(bytes: seq<byte>)
    ensures ParseHex(BytesHex(bytes)) == bytes
  {
    hide AllHex, IsLower, BytesHex, ParseHex, HexChar;
    if bytes == [] {
      NoHex();
    } else {
      var init, last := bytes[..|bytes| - 1], bytes[|bytes| - 1];
      ParseInvertsBytesHex(init);
      BytesHexLast(bytes);
      ParseTwo(BytesHex(init), last / 16, last % 16);
      assert bytes == init + [last];
    }
  }

  const FIELD := 32

  function FieldText(chunk: seq<byte>): string {
    "0x" + BytesHex(chunk)
  }

  /** `bytes.chunks(32)`, each as a text. */
  function Chunks(bytes: seq<byte>): seq<string> {
    if bytes == [] then []
    else if |bytes| < FIELD then [FieldText(bytes)]
    else [FieldText(bytes[..FIELD])] + Chunks(bytes[FIELD..])
  }

  function SplitHexFields(bytes: seq<byte>): Result<seq<string>> {
    if |bytes| % FIELD != 0 then Err else Ok(Chunks(bytes))
  }

  lemma {:induction false} ChunksAreFields(bytes: seq<byte>)
    requires |bytes| % FIELD == 0
    ensures |Chunks(bytes)| == |bytes| / FIELD
    ensures forall i :: 0 <= i < |bytes| / FIELD ==> Chunks(bytes)[i] == FieldText(bytes[FIELD * i..FIELD * i + FIELD])
  {
    hide FieldText;
    if bytes != [] {
      var rest := bytes[FIELD..];
      ChunksAreFields(rest);
      forall i | 0 <= i < |bytes| / FIELD
        ensures Chunks(bytes)[i] == FieldText(bytes[FIELD * i..FIELD * i + FIELD])
      {
        if i > 0 {
          assert rest[FIELD * (i - 1)..FIELD * (i - 1) + FIELD] == bytes[FIELD * i..FIELD * i + FIELD];
        }
      }
    }
  }

  /** The bytes of a list of field texts. */
  function JoinFields(fields: seq<string>): seq<byte>
    requires forall i :: 0 <= i < |fields| ==> |fields[i]| >= 2 && AllHex(fields[i][2..])
  {
    if fields == [] then [] else ParseHex(fields[0][2..]) + JoinFields(fields[1..])
  }

  lemma FieldReads(chunk: seq<byte>)
    requires |chunk| == FIELD
    ensures |FieldText(chunk)| == 66 && AllHex(FieldText(chunk)[2..]) && ParseHex(FieldText(chunk)[2..]) == chunk
  {
    hide BytesHex, ParseHex, AllHex;
    ParseInvertsBytesHex(chunk);
    assert FieldText(chunk)[2..] == BytesHex(chunk);
  }

  lemma ChunksFirst(bytes: seq<byte>)
    requires |bytes| >= FIELD
    ensures Chunks(bytes) == [FieldText(bytes[..FIELD])] + Chunks(bytes[FIELD..])
  {
    hide FieldText;
  }

  lemma JoinFirst(first: string, others: seq<string>)
    requires |first| >= 2 && AllHex(first[2..])
    requires forall i :: 0 <= i < |others| ==> |others[i]| >= 2 && AllHex(others[i][2..])
    ensures forall i :: 0 <= i < |[first] + others| ==> |([first] + others)[i]| >= 2 && AllHex(([first] + others)[i][2..])
    ensures JoinFields([first] + others) == ParseHex(first[2..]) + JoinFields(others)
  {
    hide AllHex, ParseHex;
    assert ([first] + others)[1..] == others;
  }

  lemma NoFields()
    ensures Chunks([]) == [] && JoinFields([]) == []
  {
  }

  /**
   * Splitting succeeds exactly for whole fields; then it gives one text of 66 characters for each,
   * and the bytes can be read back from the texts.
   */
  lemma {:induction false} SplitHexFieldsIsLossless(bytes: seq<byte>)
    ensures SplitHexFields(bytes).Ok? <==> |bytes| % FIELD == 0
    ensures SplitHexFields(bytes).Ok? ==>
              var fields := SplitHexFields(bytes).value;
              && |fields| == |bytes| / FIELD
              && (forall i :: 0 <= i < |fields| ==> |fields[i]| == 66 && AllHex(fields[i][2..]))
              && JoinFields(fields) == bytes
  {
    hide FieldText, AllHex, ParseHex, Chunks, JoinFields;
    if bytes == [] {
      NoFields();
    } else if |bytes| % FIELD == 0 {
      var chunk, rest := bytes[..FIELD], bytes[FIELD..];
      SplitHexFieldsIsLossless(rest);
      FieldReads(chunk);
      ChunksFirst(bytes);
      JoinFirst(FieldText(chunk), Chunks(rest));
      assert bytes == chunk + rest;
    }
  }

  // ----- the JavaScript twin

  function ToFieldHex(value: seq<byte>): string {
    "0x" + PadLeft(BytesHex(value), 64)
  }

  /** Both languages split alike: the padding of the JavaScript version never adds a digit. */
  method SplitFieldBuffer(buf: seq<byte>) returns (r: Result<seq<string>>)
    ensures r == SplitHexFields(buf)
  {
    hide FieldText, Chunks, PadLeft, BytesHex;
    if |buf| % FIELD != 0 {
      return Err;
    }
    ChunksAreFields(buf);
    var out: seq<string> := [];
    var offset := 0;
    while offset < |buf|
      invariant offset == FIELD * |out| && offset <= |buf|
      invariant forall i :: 0 <= i < |out| ==> out[i] == Chunks(buf)[i]
    {
      var field := ToFieldHex(buf[offset..offset + FIELD]);
      FullFieldNeedsNoPadding(buf[offset..offset + FIELD]);
      out := out + [field];
      offset := offset + FIELD;
    }
    assert out == Chunks(buf);
    return Ok(out);
  }

  lemma FullFieldNeedsNoPadding(value: seq<byte>)
    requires |value| == FIELD
    ensures ToFieldHex(value) == FieldText(value)
  {
  }

  // ----- the nullifier

  function OuterNullifier(publicInputs: seq<string>): Option<string> {
    if |publicInputs| >= 2 then Some(publicInputs[|publicInputs| - 2]) else None
  }

  /** The nullifier is the last field but one of the public-input bytes. */
  lemma OuterNullifierIsPenultimate(bytes: seq<byte>)
    requires SplitHexFields(bytes).Ok?
    ensures OuterNullifier(SplitHexFields(bytes).value)
         == if |bytes| >= 64 then Some(FieldText(bytes[|bytes| - 64..|bytes| - 32])) else None
  {
    hide FieldText;
    ChunksAreFields(bytes);
    var n := |bytes| / FIELD;
    assert |bytes| == FIELD * n;
    assert n >= 2 ==> FIELD * (n - 2) == |bytes| - 64;
  }

  // ----- addresses

  /** `normalizeEthAddress`; a Go string is taken as its bytes. */
  function NormalizeEthAddress(hexVal: string): (r: string)
    ensures |r| == 42 && StartsWith(r, "0x")
  {
    var addr := TrimPrefix(hexVal);
    if |addr| > 40 then "0x" + addr[|addr| - 40..]
    else if |addr| < 40 then "0x" + (Zeros(40 - |addr|) + addr)
    else "0x" + addr
  }

  function TrimPrefix(s: string): string {
    if StartsWith(s, "0x") then s[2..] else s
  }

  /** The digits of the text, whether `0x` stands in front of them or not. */
  lemma TrimFindsDigits(hexVal: string, digits: string)
    requires AllHex(digits) && (hexVal == digits || hexVal == "0x" + digits)
    ensures TrimPrefix(hexVal) == digits
  {
    if hexVal == digits && |digits| >= 2 {
      assert IsHexDigit(digits[1]) && hexVal[..2][1] == digits[1];
    }
  }

  lemma NormalizeEthAddressIsIdempotent(hexVal: string)
    ensures NormalizeEthAddress(NormalizeEthAddress(hexVal)) == NormalizeEthAddress(hexVal)
  {
    var r := NormalizeEthAddress(hexVal);
    assert r == "0x" + r[2..];
  }

  /** The last forty digits of a number are the number modulo 2^160. */
  lemma LastFortyDigits(high: string, last: string)
    requires AllHex(high) && AllHex(last) && |last| == 40
    ensures Pow(2, 160) > 0 && AllHex(high + last)
    ensures HexValue(last) == HexValue(high + last) % Pow(2, 160)
  {
    hide HexValue, IsHexDigit, Pow;
    PowPositive(2, 160);
    PowOfDigits(40);
    HexConcat(high, last);
    ModUnique(HexValue(high), Pow(2, 160), HexValue(last));
  }

  lemma LastDigits(hexVal: string)
    requires AllHex(TrimPrefix(hexVal))
    ensures AllHex(NormalizeEthAddress(hexVal)[2..])
    ensures Pow(2, 160) > 0
    ensures HexValue(NormalizeEthAddress(hexVal)[2..]) == HexValue(TrimPrefix(hexVal)) % Pow(2, 160)
  {
    hide TrimPrefix, HexValue, IsHexDigit, StartsWith, Pow;
    var addr := TrimPrefix(hexVal);
    if |addr| > 40 {
      var high, last := addr[..|addr| - 40], addr[|addr| - 40..];
      assert addr == high + last && NormalizeEthAddress(hexVal)[2..] == last;
      LastFortyDigits(high, last);
    } else {
      var last := Zeros(40 - |addr|) + addr;
      ZerosInFront(40 - |addr|, addr);
      assert "" + last == last && NormalizeEthAddress(hexVal)[2..] == last;
      LastFortyDigits("", last);
    }
  }

  /** The address is the field element modulo 2^160, written with `0x` in front or without. */
  lemma AddressIsModulo(hexVal: string, digits: string)
    requires AllHex(digits) && (hexVal == digits || hexVal == "0x" + digits)
    ensures AllHex(NormalizeEthAddress(hexVal)[2..])
    ensures Pow(2, 160) > 0
    ensures HexValue(NormalizeEthAddress(hexVal)[2..]) == HexValue(digits) % Pow(2, 160)
  {
    hide *;
    TrimFindsDigits(hexVal, digits);
    LastDigits(hexVal);
  }

  lemma {:induction false} PowOfDigits(k: nat)
    ensures Pow(2, 4 * k) == Pow(16, k)
  {
    if k > 0 {
      PowOfDigits(k - 1);
      PowAdd(2, 4, 4 * (k - 1));
      assert Pow(2, 4) == 16;
    }
  }

  lemma ModUnique(q: nat, p: nat, r: nat)
    requires r < p
    ensures (q * p + r) % p == r
  {
    var x := q * p + r;
    assert x == x / p * p + x % p;
    SameRemainder(x / p, x % p, q, r, p);
  }

  lemma SameRemainder(a: nat, r: nat, b: nat, s: nat, p: nat)
    requires r < p && s < p && a * p + r == b * p + s
    ensures r == s
  {
    if a < b {
      StepsApart(a, b, p);
    } else if b < a {
      StepsApart(b, a, p);
    }
  }

  lemma StepsApart(a: nat, b: nat, p: nat)
    requires a < b && p > 0
    ensures b * p >= a * p + p
  {
    MulGrows(b - a, p);
    assert b * p == a * p + (b - a) * p;
  }
}
