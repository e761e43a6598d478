/** Hexadecimal numerals. */
module Hex {
  import opened Bytes

  predicate IsHexDigit(c: char) {
    '0' <= c <= '9' || 'a' <= c <= 'f' || 'A' <= c <= 'F'
  }

  predicate AllHex(s: string) {
    forall i :: 0 <= i < |s| ==> IsHexDigit(s[i])
  }

  function HexChar(d: nat): (c: char)
    requires d < 16
    ensures IsHexDigit(c) && Lower(c) == c && DigitOf(c) == d
  {
    if d < 10 then '0' + d as char else 'a' + (d - 10) as char
  }

  function DigitOf(c: char): (d: nat)
    requires IsHexDigit(c)
    ensures d < 16
  {
    if c <= '9' then c as nat - '0' as nat
    else if c <= 'F' then c as nat - 'A' as nat + 10
    else c as nat - 'a' as nat + 10
  }

  function HexValue(s: string): nat
    requires AllHex(s)
  {
    if s == "" then 0 else 16 * HexValue(s[..|s| - 1]) + DigitOf(s[|s| - 1])
  }

  /** ASCII lower case; other characters stay. */
  function Lower(c: char): char {
    if 'A' <= c <= 'Z' then c + 32 as char else c
  }

  function LowerAll(s: string): (r: string)
    ensures |r| == |s| && forall i :: 0 <= i < |s| ==> r[i] == Lower(s[i])
  {
    if s == "" then "" else [Lower(s[0])] + LowerAll(s[1..])
  }

  function Zeros(n: nat): (r: string)
    ensures |r| == n && forall i :: 0 <= i < n ==> r[i] == '0'
  {
    if n == 0 then "" else Zeros(n - 1) + "0"
  }

  /** Zeros in front, up to `width` characters. */
  function PadLeft(s: string, width: nat): (r: string)
    ensures |r| == if |s| < width then width else |s|
    ensures r[|r| - |s|..] == s
    ensures AllHex(s) ==> AllHex(r)
  {
    if |s| < width then Zeros(width - |s|) + s else s
  }

  lemma {:induction false} ZerosInFront(n: nat, s: string)
    requires AllHex(s)
    ensures AllHex(Zeros(n) + s)
    ensures HexValue(Zeros(n) + s) == HexValue(s)
  {
    var all := Zeros(n) + s;
    if s != "" {
      ZerosInFront(n, s[..|s| - 1]);
      assert all[..|all| - 1] == Zeros(n) + s[..|s| - 1];
    } else if n > 0 {
      ZerosInFront(n - 1, "");
      assert all[..|all| - 1] == Zeros(n - 1) + "";
    }
  }

  lemma PadKeepsValue(s: string, width: nat)
    requires AllHex(s)
    ensures HexValue(PadLeft(s, width)) == HexValue(s)
  {
    hide HexValue, IsHexDigit, Zeros;
    if |s| < width {
      ZerosInFront(width - |s|, s);
    }
  }

  lemma LowerKeepsDigit(c: char)
    requires IsHexDigit(c)
    ensures IsHexDigit(Lower(c)) && DigitOf(Lower(c)) == DigitOf(c)
  {
  }

  lemma {:induction false} LowerKeepsValue(s: string)
    requires AllHex(s)
    ensures AllHex(LowerAll(s)) && HexValue(LowerAll(s)) == HexValue(s)
  {
    hide Lower, IsHexDigit, DigitOf;
    forall i | 0 <= i < |s|
      ensures IsHexDigit(LowerAll(s)[i])
    {
      LowerKeepsDigit(s[i]);
    }
    if s != "" {
      LowerKeepsValue(s[..|s| - 1]);
      LowerKeepsDigit(s[|s| - 1]);
      assert LowerAll(s)[..|s| - 1] == LowerAll(s[..|s| - 1]);
    }
  }

  lemma DigitsSplit(x: nat, d: nat, y: nat, e: nat)
    requires d < 16 && e < 16 && 16 * x + d == 16 * y + e
    ensures x == y && d == e
  {
  }

  lemma DigitIsInjective(c: char, d: char)
    requires IsHexDigit(c) && IsHexDigit(d) && Lower(c) == c && Lower(d) == d && DigitOf(c) == DigitOf(d)
    ensures c == d
  {
  }

  predicate IsLower(s: string) {
    forall i :: 0 <= i < |s| ==> Lower(s[i]) == s[i]
  }

  /** Of one length and in lower case, a number has one numeral. */
  lemma {:induction false} HexIsInjective(a: string, b: string)
    requires |a| == |b| && AllHex(a) && AllHex(b) && IsLower(a) && IsLower(b)
    requires HexValue(a) == HexValue(b)
    ensures a == b
  {
    hide Lower, IsHexDigit, DigitOf;
    if a != "" {
      var k := |a| - 1;
      DigitsSplit(HexValue(a[..k]), DigitOf(a[k]), HexValue(b[..k]), DigitOf(b[k]));
      DigitIsInjective(a[k], b[k]);
      HexIsInjective(a[..k], b[..k]);
      assert a == a[..k] + [a[k]] && b == b[..k] + [b[k]];
    }
  }

  lemma Shifted(x: nat, p: nat, v: nat)
    ensures 16 * (x * p + v) == x * (16 * p) + 16 * v
  {
  }

  lemma {:induction false} HexConcat(a: string, b: string)
    requires AllHex(a) && AllHex(b)
    ensures AllHex(a + b)
    ensures HexValue(a + b) == HexValue(a) * Pow(16, |b|) + HexValue(b)
    ensures HexValue(b) < Pow(16, |b|)
  {
    hide IsHexDigit, DigitOf;
    if b == "" {
      assert a + b == a;
    } else {
      var k := |b| - 1;
      HexConcat(a, b[..k]);
      assert (a + b)[..|a + b| - 1] == a + b[..k];
      Shifted(HexValue(a), Pow(16, k), HexValue(b[..k]));
    }
  }
}
