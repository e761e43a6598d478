/** Bytes, buffers, powers and big-endian numbers. */
module Bytes {

  type byte = b: nat | b < 256

  /** 2^64: the range of `usize` and `u64` on the 64-bit targets the prover is built for. */
  const WORD := 0x1_0000_0000_0000_0000

  /** A Rust slice never holds more than `isize::MAX` bytes. */
  const MAX_SLICE := 0x7fff_ffff_ffff_ffff

  type Buffer = s: seq<byte> | |s| <= MAX_SLICE

  function Pow(base: nat, e: nat): nat {
    if e == 0 then 1 else base * Pow(base, e - 1)
  }

  lemma {:induction false} PowPositive(base: nat, e: nat)
    requires base > 0
    ensures Pow(base, e) > 0
  {
    if e > 0 {
      PowPositive(base, e - 1);
    }
  }

  lemma MulGrows(a: nat, b: nat)
    requires a > 0
    ensures a * b >= b
  {
  }

  lemma {:induction false} PowMonotone(base: nat, low: nat, high: nat)
    requires base > 0 && low <= high
    ensures Pow(base, low) <= Pow(base, high)
    decreases high
  {
    if low < high {
      PowMonotone(base, low, high - 1);
      PowPositive(base, high - 1);
      MulGrows(base, Pow(base, high - 1));
    }
  }

  lemma {:induction false} PowAdd(base: nat, a: nat, b: nat)
    ensures Pow(base, a + b) == Pow(base, a) * Pow(base, b)
  {
    if a > 0 {
      PowAdd(base, a - 1, b);
      MulAssociative(base, Pow(base, a - 1), Pow(base, b));
    }
  }

  lemma MulAssociative(a: nat, b: nat, c: nat)
    ensures a * b * c == a * (b * c)
  {
  }

  /** Eight binary digits make one digit of base 256. */
  lemma {:induction false} PowOfBytes(k: nat)
    ensures Pow(2, 8 * k) == Pow(256, k)
  {
    if k > 0 {
      PowOfBytes(k - 1);
      PowAdd(2, 8, 8 * (k - 1));
      assert Pow(2, 8) == 256 by {
        assert Pow(2, 4) == 16;
      }
    }
  }

  /** The number that big-endian bytes denote. */
  function ToNat(bytes: seq<byte>): nat {
    if bytes == [] then 0 else 256 * ToNat(bytes[..|bytes| - 1]) + bytes[|bytes| - 1]
  }

  lemma ToNatAppend(bytes: seq<byte>, last: byte, all: seq<byte>)
    requires all == bytes + [last]
    ensures ToNat(all) == 256 * ToNat(bytes) + last
  {
    assert all[..|bytes|] == bytes;
  }

  /** The shortest big-endian bytes that denote `n`; none for zero. */
  function BigEndian(n: nat): seq<byte> {
    if n == 0 then [] else BigEndian(n / 256) + [n % 256]
  }

  lemma {:induction false} BigEndianInverts(n: nat)
    ensures ToNat(BigEndian(n)) == n
    ensures n > 0 ==> BigEndian(n) != []
  {
    if n > 0 {
      BigEndianInverts(n / 256);
      assert BigEndian(n)[..|BigEndian(n)| - 1] == BigEndian(n / 256);
    }
  }

  /** BigEndian uses as few bytes as the number needs: no superfluous leading byte. */
  lemma {:induction false} BigEndianMinimal(n: nat)
    ensures n < Pow(256, |BigEndian(n)|)
    ensures n > 0 ==> BigEndian(n) != [] && BigEndian(n)[0] > 0
    ensures n > 0 ==> Pow(256, |BigEndian(n)| - 1) <= n
  {
    if n > 0 {
      BigEndianMinimal(n / 256);
      if n >= 256 {
        assert Pow(256, |BigEndian(n)| - 1) == 256 * Pow(256, |BigEndian(n / 256)| - 1);
      }
    }
  }

  /** A number below 256^k needs at most k bytes. */
  lemma {:induction false} BigEndianLength(n: nat, k: nat)
    requires n < Pow(256, k)
    ensures |BigEndian(n)| <= k
  {
    BigEndianMinimal(n);
    if |BigEndian(n)| > k {
      PowMonotone(256, k, |BigEndian(n)| - 1);
    }
  }

  /** The elements `part` stand in `buf` at position `p`. */
  ghost predicate At<T>(buf: seq<T>, p: nat, part: seq<T>) {
    p + |part| <= |buf| && forall i :: 0 <= i < |part| ==> part[i] == buf[p + i]
  }

  lemma AtConcat<T>(buf: seq<T>, p: nat, left: seq<T>, right: seq<T>)
    requires At(buf, p, left + right)
    ensures At(buf, p, left) && At(buf, p + |left|, right)
  {
    var both := left + right;
    assert forall i :: 0 <= i < |left| ==> left[i] == both[i];
    assert forall i :: 0 <= i < |right| ==> right[i] == both[|left| + i];
  }

  lemma AtSlice<T>(buf: seq<T>, p: nat, part: seq<T>)
    requires At(buf, p, part)
    ensures buf[p..p + |part|] == part
  {
  }
}
