/** ASCII text: decimal numerals, prefixes and separators. */
module Text {

  predicate StartsWith(s: string, prefix: string) {
    |prefix| <= |s| && s[..|prefix|] == prefix
  }

  predicate IsDigit(c: char) {
    '0' <= c <= '9'
  }

  function DigitChar(d: nat): (c: char)
    requires d < 10
    ensures IsDigit(c)
  {
    '0' + d as char
  }

  function DigitValue(c: char): (d: nat)
    requires IsDigit(c)
    ensures d < 10 && DigitChar(d) == c
  {
    c as nat - '0' as nat
  }

  predicate AllDigits(s: string) {
    forall i :: 0 <= i < |s| ==> IsDigit(s[i])
  }

  /** The decimal numeral of `n`, as Rust's `to_string` and JavaScript's templates print it. */
  function Decimal(n: nat): (s: string)
    ensures s != "" && AllDigits(s)
  {
    if n < 10 then [DigitChar(n)] else Decimal(n / 10) + [DigitChar(n % 10)]
  }

  function DecimalValue(s: string): nat
    requires AllDigits(s)
  {
    if s == "" then 0 else 10 * DecimalValue(s[..|s| - 1]) + DigitValue(s[|s| - 1])
  }

  lemma {:induction false} DecimalInverts(n: nat)
    ensures DecimalValue(Decimal(n)) == n
  {
    var s := Decimal(n);
    if n < 10 {
      assert s[..|s| - 1] == "";
    } else {
      DecimalInverts(n / 10);
      assert s[..|s| - 1] == Decimal(n / 10);
    }
  }

  /** No leading zeros. */
  lemma {:induction false} DecimalLeads(n: nat)
    requires n > 0
    ensures Decimal(n)[0] != '0'
  {
    if n >= 10 {
      DecimalLeads(n / 10);
    }
  }

  lemma DecimalInjective(m: nat, n: nat)
    requires Decimal(m) == Decimal(n)
    ensures m == n
  {
    DecimalInverts(m);
    DecimalInverts(n);
  }

  /** Cutting at the first separator is unambiguous. */
  lemma CutUnique(sep: char, a: string, ra: string, b: string, rb: string)
    requires a + ra == b + rb
    requires sep !in a && sep !in b
    requires (ra == "" || ra[0] == sep) && (rb == "" || rb[0] == sep)
    ensures a == b && ra == rb
  {
    CutNotLonger(sep, a, ra, b, rb);
    CutNotLonger(sep, b, rb, a, ra);
    var s := a + ra;
    assert a == s[..|a|] && b == s[..|a|];
    assert ra == s[|a|..] && rb == s[|a|..];
  }

  lemma CutNotLonger(sep: char, a: string, ra: string, b: string, rb: string)
    requires a + ra == b + rb
    requires sep !in b
    requires ra == "" || ra[0] == sep
    ensures |b| <= |a|
  {
    var s := a + ra;
    assert |a| < |s| ==> s[|a|] == ra[0] == sep;
    assert forall i :: 0 <= i < |b| ==> s[i] == (b + rb)[i] == b[i];
  }

  /** `raw` is `text` with characters of `noise` put in anywhere. */
  predicate Interleaved(raw: string, text: string, noise: set<char>) {
    if raw == "" then text == ""
    else if raw[0] in noise then Interleaved(raw[1..], text, noise)
    else text != "" && text[0] == raw[0] && Interleaved(raw[1..], text[1..], noise)
  }

  lemma {:induction false} InterleavedSelf(text: string, noise: set<char>)
    requires forall i :: 0 <= i < |text| ==> text[i] !in noise
    ensures Interleaved(text, text, noise)
  {
    if text != "" {
      InterleavedSelf(text[1..], noise);
    }
  }

  lemma {:induction false} InterleavedConcat(rawA: string, a: string, rawB: string, b: string, noise: set<char>)
    requires Interleaved(rawA, a, noise) && Interleaved(rawB, b, noise)
    ensures Interleaved(rawA + rawB, a + b, noise)
  {
    if rawA == "" {
      assert rawA + rawB == rawB && a + b == b;
    } else {
      assert (rawA + rawB)[1..] == rawA[1..] + rawB;
      if rawA[0] in noise {
        InterleavedConcat(rawA[1..], a, rawB, b, noise);
      } else {
        assert (a + b)[1..] == a[1..] + b;
        InterleavedConcat(rawA[1..], a[1..], rawB, b, noise);
      }
    }
  }

  lemma FirstAndRest(c: char, rest: string, text: string)
    requires text != ""
    ensures [c] + rest == text <==> c == text[0] && rest == text[1..]
  {
    assert text == [text[0]] + text[1..];
    assert ([c] + rest)[0] == c && ([c] + rest)[1..] == rest;
  }

  /** Numbers joined by dots: the text form of an object identifier. */
  function Dotted(parts: seq<nat>): string {
    if parts == [] then ""
    else if |parts| == 1 then Decimal(parts[0])
    else Decimal(parts[0]) + "." + Dotted(parts[1..])
  }

  /** What follows the first number: nothing, or a dot and the other numbers. */
  function DottedTail(parts: seq<nat>): string
    requires parts != []
  {
    if |parts| == 1 then "" else "." + Dotted(parts[1..])
  }

  lemma DottedSplit(parts: seq<nat>)
    requires parts != []
    ensures Dotted(parts) == Decimal(parts[0]) + DottedTail(parts)
    ensures '.' !in Decimal(parts[0])
  {
  }

  lemma {:induction false} DottedInjective(p: seq<nat>, q: seq<nat>)
    requires p != [] && q != []
    requires Dotted(p) == Dotted(q)
    ensures p == q
    decreases |p|, 1
  {
    DottedSplit(p);
    DottedSplit(q);
    CutUnique('.', Decimal(p[0]), DottedTail(p), Decimal(q[0]), DottedTail(q));
    DecimalInjective(p[0], q[0]);
    DottedTailInjective(p, q);
    assert p == [p[0]] + p[1..] && q == [q[0]] + q[1..];
  }

  lemma {:induction false} DottedTailInjective(p: seq<nat>, q: seq<nat>)
    requires p != [] && q != []
    requires DottedTail(p) == DottedTail(q)
    ensures p[1..] == q[1..]
    decreases |p|, 0
  {
    if |p| > 1 && |q| > 1 {
      assert Dotted(p[1..]) == DottedTail(p)[1..];
      assert Dotted(q[1..]) == DottedTail(q)[1..];
      DottedInjective(p[1..], q[1..]);
    }
  }
}
