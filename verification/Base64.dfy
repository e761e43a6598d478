/** Base64 (RFC 4648) as `handleRequestQR` reads it: URL-safe text is translated, padded and decoded. */
module Base64 {
  import opened Wrappers
  import opened Bytes
  import opened Text

  /** The alphabets of sections 4 and 5 of RFC 4648, which differ in the last two characters. */
  function Symbol(v: nat, url: bool): char
    requires v < 64
  {
    if v < 26 then 'A' + v as char
    else if v < 52 then 'a' + (v - 26) as char
    else if v < 62 then '0' + (v - 52) as char
    else if v == 62 then (if url then '-' else '+')
    else (if url then '_' else '/')
  }

  /** The value of a character of the standard alphabet. */
  function Value(c: char): (v: Option<nat>)
    ensures v.Some? ==> v.value < 64
  {
    if 'A' <= c <= 'Z' then Some(c as nat - 'A' as nat)
    else if 'a' <= c <= 'z' then Some(c as nat - 'a' as nat + 26)
    else if '0' <= c <= '9' then Some(c as nat - '0' as nat + 52)
    else if c == '+' then Some(62)
    else if c == '/' then Some(63)
    else None
  }

  /** Three bytes as four groups of six bits, and back. */
  lemma SixBitGroups(x: byte, y: byte, z: byte)
    ensures x % 4 * 16 + y / 16 < 64 && y % 16 * 4 + z / 64 < 64
    ensures x / 4 * 4 + (x % 4 * 16 + y / 16) / 16 == x
    ensures (x % 4 * 16 + y / 16) % 16 * 16 + (y % 16 * 4 + z / 64) / 4 == y
    ensures (y % 16 * 4 + z / 64) % 4 * 64 + z % 64 == z
  {
  }

  /** The four characters of three bytes. */
  function Quantum(x: byte, y: byte, z: byte, url: bool): (q: string)
    ensures |q| == 4
  {
    SixBitGroups(x, y, z);
    [Symbol(x / 4, url), Symbol(x % 4 * 16 + y / 16, url), Symbol(y % 16 * 4 + z / 64, url), Symbol(z % 64, url)]
  }

  /** One or two last bytes are completed by zero bits, and make two or three characters. */
  function Encode(bytes: seq<byte>, url: bool): string {
    if bytes == [] then ""
    else if |bytes| == 1 then Quantum(bytes[0], 0, 0, url)[..2]
    else if |bytes| == 2 then Quantum(bytes[0], bytes[1], 0, url)[..3]
    else Quantum(bytes[0], bytes[1], bytes[2], url) + Encode(bytes[3..], url)
  }

  function Padding(length: nat): string {
    if length % 4 == 2 then "==" else if length % 4 == 3 then "=" else ""
  }

  /** The four ways to write bytes: standard or URL-safe, with or without padding. */
  function EncodeText(bytes: seq<byte>, url: bool, padded: bool): string {
    var text := Encode(bytes, url);
    if padded then text + Padding(|text|) else text
  }

  function ReplaceAll(s: string, before: char, after: char): (r: string)
    ensures |r| == |s| && forall i :: 0 <= i < |s| ==> r[i] == if s[i] == before then after else s[i]
  {
    if s == "" then "" else [if s[0] == before then after else s[0]] + ReplaceAll(s[1..], before, after)
  }

  /** Go's decoder skips line breaks wherever they stand. */
  function WithoutBreaks(s: string): string {
    if s == "" then ""
    else if s[0] == '\r' || s[0] == '\n' then WithoutBreaks(s[1..])
    else [s[0]] + WithoutBreaks(s[1..])
  }

  /** Padded standard base64; like Go's, it does not look at the unused bits before the padding. */
  function DecodeQuanta(s: string): Result<seq<byte>> {
    if s == "" then Ok([])
    else if |s| < 4 then Err
    else
      var a, b, c, d := Value(s[0]), Value(s[1]), Value(s[2]), Value(s[3]);
      if a.None? || b.None? then Err
      else if s[2..] == "==" then Ok([a.value * 4 + b.value / 16])
      else if c.None? then Err
      else if s[3..] == "=" then Ok([a.value * 4 + b.value / 16, b.value % 16 * 16 + c.value / 4])
      else if d.None? then Err
      else
        var rest :- DecodeQuanta(s[4..]);
        Ok([a.value * 4 + b.value / 16, b.value % 16 * 16 + c.value / 4, c.value % 4 * 64 + d.value] + rest)
  }

  function StdDecode(s: string): Result<seq<byte>> {
    DecodeQuanta(WithoutBreaks(s))
  }

  function Normalized(payload: string): string {
    var text := ReplaceAll(ReplaceAll(payload, '-', '+'), '_', '/');
    text + Padding(|text|)
  }

  // ----- symbols

  /** Tables 1 and 2 of RFC 4648. */
  lemma SymbolsByLetter(v: nat, url: bool)
    requires v < 64
    ensures v < 26 ==> Symbol(v, url) == "ABCDEFGHIJKLMNOPQRSTUVWXYZ"[v]
    ensures 26 <= v < 52 ==> Symbol(v, url) == "abcdefghijklmnopqrstuvwxyz"[v - 26]
    ensures 52 <= v < 62 ==> Symbol(v, url) == "0123456789"[v - 52]
    ensures v >= 62 ==> Symbol(v, url) == (if url then "-_" else "+/")[v - 62]
  {
  }

  lemma SixBitsAreUnique(a: nat, b: nat, c: nat, d: nat, e: nat, f: nat, g: nat, h: nat)
    requires a < 64 && b < 64 && c < 64 && d < 64 && e < 64 && f < 64 && g < 64 && h < 64
    requires 262144 * a + 4096 * b + 64 * c + d == 262144 * e + 4096 * f + 64 * g + h
    ensures a == e && b == f && c == g && d == h
  {
  }

  lemma SixBitNumber(x: byte, y: byte, z: byte)
    ensures 262144 * (x / 4) + 4096 * (x % 4 * 16 + y / 16) + 64 * (y % 16 * 4 + z / 64) + z % 64
         == 0x10000 * x + 0x100 * y + z
  {
  }

  /** A quantum is the number of its three bytes in base 64, the most significant digit first. */
  lemma QuantumIsNumber(x: byte, y: byte, z: byte, url: bool, a: nat, b: nat, c: nat, d: nat)
    requires a < 64 && b < 64 && c < 64 && d < 64
    requires 0x10000 * x + 0x100 * y + z == 262144 * a + 4096 * b + 64 * c + d
    ensures Quantum(x, y, z, url) == [Symbol(a, url), Symbol(b, url), Symbol(c, url), Symbol(d, url)]
  {
    hide Symbol;
    SixBitGroups(x, y, z);
    SixBitNumber(x, y, z);
    SixBitsAreUnique(a, b, c, d, x / 4, x % 4 * 16 + y / 16, y % 16 * 4 + z / 64, z % 64);
  }

  lemma SymbolFacts(v: nat)
    requires v < 64
    ensures Value(Symbol(v, false)) == Some(v) && Symbol(v, false) != '='
  {
  }

  predicate IsSymbol(c: char, url: bool) {
    c != '=' && c != '\r' && c != '\n' && (!url ==> c != '-' && c != '_')
  }

  /** The standard character that the translation makes of a character. */
  function Translated(c: char): char {
    if c == '-' then '+' else if c == '_' then '/' else c
  }

  lemma QuantumIsTranslated(x: byte, y: byte, z: byte, url: bool)
    ensures forall i :: 0 <= i < 4 ==>
              IsSymbol(Quantum(x, y, z, url)[i], url) && Translated(Quantum(x, y, z, url)[i]) == Quantum(x, y, z, false)[i]
  {
    hide Symbol, Translated, IsSymbol;
    SixBitGroups(x, y, z);
    SymbolOf(x / 4, url);
    SymbolOf(x % 4 * 16 + y / 16, url);
    SymbolOf(y % 16 * 4 + z / 64, url);
    SymbolOf(z % 64, url);
  }

  lemma {:induction false} EncodeIsTranslated(bytes: seq<byte>, url: bool)
    ensures |Encode(bytes, url)| == |Encode(bytes, false)|
    ensures forall i :: 0 <= i < |Encode(bytes, url)| ==>
              IsSymbol(Encode(bytes, url)[i], url) && Translated(Encode(bytes, url)[i]) == Encode(bytes, false)[i]
  {
    hide Quantum, Translated, IsSymbol;
    if |bytes| == 1 {
      QuantumIsTranslated(bytes[0], 0, 0, url);
    } else if |bytes| == 2 {
      QuantumIsTranslated(bytes[0], bytes[1], 0, url);
    } else if |bytes| > 2 {
      QuantumIsTranslated(bytes[0], bytes[1], bytes[2], url);
      EncodeIsTranslated(bytes[3..], url);
    }
  }

  lemma SymbolOf(v: nat, url: bool)
    requires v < 64
    ensures IsSymbol(Symbol(v, url), url) && Translated(Symbol(v, url)) == Symbol(v, false)
  {
  }

  lemma OneQuantumLess(n: nat, x: nat)
    requires n >= 3
    ensures n % 3 == (n - 3) % 3 && (4 + x) % 4 == x % 4
  {
  }

  lemma {:induction false} EncodedLength(bytes: seq<byte>)
    ensures |Encode(bytes, false)| % 4 == (if |bytes| % 3 == 0 then 0 else |bytes| % 3 + 1)
  {
    hide Quantum;
    if |bytes| >= 3 {
      EncodedLength(bytes[3..]);
      OneQuantumLess(|bytes|, |Encode(bytes[3..], false)|);
    }
  }

  // ----- round trips

  lemma DecodeQuantum(s: string, a: nat, b: nat, c: nat, d: nat, others: seq<byte>)
    requires |s| >= 4 && a < 64 && b < 64 && c < 64 && d < 64
    requires Value(s[0]) == Some(a) && Value(s[1]) == Some(b) && Value(s[2]) == Some(c) && Value(s[3]) == Some(d)
    requires s[2] != '=' && s[3] != '='
    requires DecodeQuanta(s[4..]) == Ok(others)
    ensures DecodeQuanta(s) == Ok([a * 4 + b / 16, b % 16 * 16 + c / 4, c % 4 * 64 + d] + others)
  {
    hide Value;
    assert s[2..][0] == s[2] && s[3..][0] == s[3];
  }

  /** The four values of a quantum. */
  lemma QuantumValues(x: byte, y: byte, z: byte)
    ensures x % 4 * 16 + y / 16 < 64 && y % 16 * 4 + z / 64 < 64
    ensures var q := Quantum(x, y, z, false);
            && Value(q[0]) == Some(x / 4) && Value(q[1]) == Some(x % 4 * 16 + y / 16)
            && Value(q[2]) == Some(y % 16 * 4 + z / 64) && Value(q[3]) == Some(z % 64)
            && q[2] != '=' && q[3] != '='
  {
    hide Symbol, Value;
    SixBitGroups(x, y, z);
    SymbolFacts(x / 4);
    SymbolFacts(x % 4 * 16 + y / 16);
    SymbolFacts(y % 16 * 4 + z / 64);
    SymbolFacts(z % 64);
  }

  lemma DecodeThree(x: byte, y: byte, z: byte, rest: string, others: seq<byte>)
    requires DecodeQuanta(rest) == Ok(others)
    ensures DecodeQuanta(Quantum(x, y, z, false) + rest) == Ok([x, y, z] + others)
  {
    hide Quantum, Value, DecodeQuanta;
    SixBitGroups(x, y, z);
    QuantumValues(x, y, z);
    var s := Quantum(x, y, z, false) + rest;
    assert s[4..] == rest;
    DecodeQuantum(s, x / 4, x % 4 * 16 + y / 16, y % 16 * 4 + z / 64, z % 64, others);
  }

  lemma DecodeTwo(x: byte, y: byte)
    ensures DecodeQuanta(Quantum(x, y, 0, false)[..3] + "=") == Ok([x, y])
  {
    hide Quantum, Value;
    SixBitGroups(x, y, 0);
    QuantumValues(x, y, 0);
    var s := Quantum(x, y, 0, false)[..3] + "=";
    assert s[2..][0] == s[2] && s[3..] == "=";
  }

  lemma DecodeOne(x: byte)
    ensures DecodeQuanta(Quantum(x, 0, 0, false)[..2] + "==") == Ok([x])
  {
    hide Quantum, Value;
    SixBitGroups(x, 0, 0);
    QuantumValues(x, 0, 0);
    var s := Quantum(x, 0, 0, false)[..2] + "==";
    assert s[2..] == "==";
  }

  lemma PaddedQuantum(quantum: string, rest: string)
    requires |quantum| == 4
    ensures (quantum + rest) + Padding(|quantum + rest|) == quantum + (rest + Padding(|rest|))
  {
  }

  lemma PaddingOf(length: nat)
    ensures Padding(length) == if length % 4 == 2 then "==" else if length % 4 == 3 then "=" else ""
  {
  }

  lemma DecodeNothing()
    ensures DecodeQuanta("" + Padding(0)) == Ok([])
  {
    assert "" + Padding(0) == "";
  }

  /** Standard decoding inverts standard encoding, padded. */
  lemma {:induction false} DecodeInvertsEncode(bytes: seq<byte>)
    ensures var text := Encode(bytes, false);
            DecodeQuanta(text + Padding(|text|)) == Ok(bytes)
  {
    hide Quantum, DecodeQuanta, Padding;
    if bytes == [] {
      DecodeNothing();
    } else if |bytes| == 1 {
      assert bytes == [bytes[0]];
      PaddingOf(2);
      DecodeOne(bytes[0]);
    } else if |bytes| == 2 {
      assert bytes == [bytes[0], bytes[1]];
      PaddingOf(3);
      DecodeTwo(bytes[0], bytes[1]);
    } else {
      var rest := Encode(bytes[3..], false);
      DecodeInvertsEncode(bytes[3..]);
      DecodeThree(bytes[0], bytes[1], bytes[2], rest + Padding(|rest|), bytes[3..]);
      assert bytes == [bytes[0], bytes[1], bytes[2]] + bytes[3..];
      PaddedQuantum(Quantum(bytes[0], bytes[1], bytes[2], false), rest);
    }
  }

  /** Translating an encoded text and padding it again gives the standard padded text. */
  lemma NormalizedIsStandard(bytes: seq<byte>, url: bool, padded: bool)
    ensures Normalized(EncodeText(bytes, url, padded)) == EncodeText(bytes, false, true)
  {
    hide Encode, Translate, Padding, Normalized;
    var text := EncodeText(bytes, url, padded);
    TranslatedText(bytes, url, padded);
    TranslateLength(text);
    PaddedAgain(Encode(bytes, false), padded, |text|);
  }

  /** Padded text that can be decoded: symbols, of which the last one or two may be padding. */
  predicate IsPadded(s: string) {
    && |s| % 4 == 0
    && (s != "" ==>
          && (forall i :: 0 <= i < |s| - 2 ==> Value(s[i]).Some?)
          && (s[|s| - 2..] == "=="
              || (Value(s[|s| - 2]).Some? && (s[|s| - 1] == '=' || Value(s[|s| - 1]).Some?))))
  }

  lemma {:induction false} DecodesIff(s: string)
    ensures DecodeQuanta(s).Ok? <==> IsPadded(s)
  {
    hide Value;
    if |s| > 4 {
      var rest := s[4..];
      DecodesIff(rest);
      PaddedFirst(s);
    } else if |s| == 4 {
      assert s[2..] == [s[2], s[3]] && s[3..] == [s[3]] && s[4..] == "";
    }
  }

  lemma PaddedFirst(s: string)
    requires |s| > 4
    ensures IsPadded(s)
       <==> && Value(s[0]).Some? && Value(s[1]).Some? && Value(s[2]).Some? && Value(s[3]).Some?
            && IsPadded(s[4..])
  {
    hide Value;
    var rest := s[4..];
    assert forall i :: 0 <= i < |rest| ==> rest[i] == s[i + 4];
    assert forall i :: 4 <= i < |s| ==> s[i] == rest[i - 4];
    assert |s| >= 8 ==> rest[|rest| - 2..] == s[|s| - 2..];
    assert |s| % 4 == |rest| % 4;
  }

  // ----- payloads with line breaks in them

  const LINE_BREAKS := {'\r', '\n'}

  /** The decoder reads the text that was broken up, and only that one. */
  lemma {:induction false} WithoutBreaksIff(raw: string, text: string)
    ensures WithoutBreaks(raw) == text <==> Interleaved(raw, text, LINE_BREAKS)
  {
    if raw != "" {
      if raw[0] in LINE_BREAKS {
        WithoutBreaksIff(raw[1..], text);
      } else if text != "" {
        WithoutBreaksIff(raw[1..], text[1..]);
        FirstAndRest(raw[0], WithoutBreaks(raw[1..]), text);
      }
    }
  }

  function Translate(s: string): string {
    ReplaceAll(ReplaceAll(s, '-', '+'), '_', '/')
  }

  lemma TranslateFirst(s: string)
    requires s != ""
    ensures Translate(s) != "" && Translate(s)[0] == Translated(s[0]) && Translate(s)[1..] == Translate(s[1..])
    ensures Translated(s[0]) in LINE_BREAKS <==> s[0] in LINE_BREAKS
  {
    assert Translate(s)[1..] == Translate(s[1..]);
  }

  /** Translating commutes with breaking up. */
  lemma {:induction false} TranslateInterleaved(raw: string, text: string)
    requires Interleaved(raw, text, LINE_BREAKS)
    ensures Interleaved(Translate(raw), Translate(text), LINE_BREAKS)
  {
    assert Translate("") == "";
    hide Translate, Translated;
    if raw != "" {
      TranslateFirst(raw);
      if raw[0] in LINE_BREAKS {
        TranslateInterleaved(raw[1..], text);
      } else {
        TranslateFirst(text);
        TranslateInterleaved(raw[1..], text[1..]);
      }
    }
  }

  /** What is decoded: the text that was broken up, with the padding for the length of the broken one. */
  lemma BrokenIsRead(raw: string, text: string)
    requires Interleaved(raw, text, LINE_BREAKS)
    ensures WithoutBreaks(Normalized(raw)) == Translate(text) + Padding(|raw|)
  {
    InterleavedSelf(Padding(|raw|), LINE_BREAKS);
    hide Translate, Padding, ReplaceAll, Interleaved;
    TranslateInterleaved(raw, text);
    InterleavedConcat(Translate(raw), Translate(text), Padding(|raw|), Padding(|raw|), LINE_BREAKS);
    TranslateLength(raw);
    WithoutBreaksIff(Normalized(raw), Translate(text) + Padding(|raw|));
  }

  lemma TranslateLength(s: string)
    ensures |Translate(s)| == |s| && Normalized(s) == Translate(s) + Padding(|s|)
  {
  }

  lemma TranslatedText(bytes: seq<byte>, url: bool, padded: bool)
    ensures var standard := Encode(bytes, false);
            && Translate(EncodeText(bytes, url, padded)) == EncodeText(bytes, false, padded)
            && |EncodeText(bytes, url, padded)| == |standard| + (if padded then |Padding(|standard|)| else 0)
            && |standard| % 4 != 1
  {
    hide Encode;
    EncodeIsTranslated(bytes, url);
    EncodedLength(bytes);
  }

  /** The padding for another length is right exactly if it is the same padding. */
  lemma PaddingFits(n: nat, m: nat)
    requires n % 4 != 1
    ensures (n + |Padding(m)|) % 4 == 0 <==> Padding(m) == Padding(n)
    ensures (n + |Padding(n)|) % 4 == 0
  {
  }

  /**
   * Whatever bytes were encoded, in either alphabet, with or without padding, and with any line
   * breaks put in: the handler decodes those bytes if the breaks do not change the padding that it
   * computes from the length, and rejects the payload otherwise.
   */
  lemma PayloadIsReadIff(raw: string, bytes: seq<byte>, url: bool, padded: bool)
    requires Interleaved(raw, EncodeText(bytes, url, padded), LINE_BREAKS)
    ensures StdDecode(Normalized(raw))
         == if Padding(|raw|) == Padding(|EncodeText(bytes, url, padded)|) then Ok(bytes) else Err
  {
    hide Encode, DecodeQuanta, Normalized, WithoutBreaks, Interleaved, Translate, Padding;
    var text, standard := EncodeText(bytes, url, padded), Encode(bytes, false);
    BrokenIsRead(raw, text);
    TranslatedText(bytes, url, padded);
    PaddingFits(|standard|, |raw|);
    PaddingFits(|text|, |raw|);
    DecodeInvertsEncode(bytes);
    var read := Translate(text) + Padding(|raw|);
    DecodesIff(read);
    PaddedAgain(standard, padded, |raw|);
  }

  lemma PaddedAgain(standard: string, padded: bool, m: nat)
    requires |standard| % 4 != 1
    ensures var text := if padded then standard + Padding(|standard|) else standard;
            Padding(m) == Padding(|text|) ==> text + Padding(m) == standard + Padding(|standard|)
  {
    if padded {
      assert standard + Padding(|standard|) + "" == standard + Padding(|standard|);
    }
  }

  /** In particular without any breaks. */
  lemma PayloadRoundTrip(bytes: seq<byte>, url: bool, padded: bool)
    ensures StdDecode(Normalized(EncodeText(bytes, url, padded))) == Ok(bytes)
  {
    TextHasNoBreaks(bytes, url, padded);
    hide *;
    InterleavedSelf(EncodeText(bytes, url, padded), LINE_BREAKS);
    PayloadIsReadIff(EncodeText(bytes, url, padded), bytes, url, padded);
  }

  lemma TextHasNoBreaks(bytes: seq<byte>, url: bool, padded: bool)
    ensures var text := EncodeText(bytes, url, padded);
            forall i :: 0 <= i < |text| ==> text[i] !in LINE_BREAKS
  {
    hide Encode;
    EncodeIsTranslated(bytes, url);
    var encoded := Encode(bytes, url);
    forall i | 0 <= i < |encoded|
      ensures encoded[i] !in LINE_BREAKS
    {
      assert IsSymbol(encoded[i], url);
    }
  }

  /** The handler's own text operations; what any encoder wrote, it decodes. */
  method DecodePayload(payload: string) returns (r: Result<seq<byte>>)
    ensures r == StdDecode(Normalized(payload))
    ensures forall bytes: seq<byte>, url: bool, padded: bool ::
              Interleaved(payload, EncodeText(bytes, url, padded), LINE_BREAKS) ==>
                r == if Padding(|payload|) == Padding(|EncodeText(bytes, url, padded)|) then Ok(bytes) else Err
  {
    hide StdDecode, EncodeText, Interleaved;
    var normalized := ReplaceAll(payload, '-', '+');
    normalized := ReplaceAll(normalized, '_', '/');
    if |normalized| % 4 == 2 {
      normalized := normalized + "==";
    } else if |normalized| % 4 == 3 {
      normalized := normalized + "=";
    } else {
      assert normalized + "" == normalized;
    }
    forall bytes: seq<byte>, url: bool, padded: bool | Interleaved(payload, EncodeText(bytes, url, padded), LINE_BREAKS)
      ensures StdDecode(Normalized(payload))
           == if Padding(|payload|) == Padding(|EncodeText(bytes, url, padded)|) then Ok(bytes) else Err
    {
      PayloadIsReadIff(payload, bytes, url, padded);
    }
    return StdDecode(normalized);
  }
}
