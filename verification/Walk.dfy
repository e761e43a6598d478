/**
 * Walks over sibling values, the loop shape that `analysis.rs` repeats: read a header, step to the
 * end of its content, until the end of the parent.  Here on arbitrary bytes.
 */
module Walk {
  import opened Bytes
  import opened Wrappers
  import opened Der

  /** A step of a walk, as a build with overflow checks takes it. */
  function Advance(tlv: Tlv): Outcome<nat> {
    if tlv.End() < WORD then Done(tlv.End()) else Overflowed
  }

  /** A sum of two machine words, as a build with overflow checks computes it. */
  function CheckedSum(a: nat, b: nat): Outcome<nat> {
    if a + b < WORD then Done(a + b) else Overflowed
  }

  /** All values that a complete walk from `pos` to `end` visits. */
  function Siblings(buf: Buffer, pos: nat, end: nat): Outcome<seq<Tlv>>
    decreases end - pos
  {
    if pos >= end then Done([])
    else
      match ParseTlv(buf, pos)
      case None => Failed
      case Some(tlv) =>
        var next :- Advance(tlv);
        var rest :- Siblings(buf, next, end);
        Done([tlv] + rest)
  }

  /** What one walked value guarantees about the next one and about the buffer. */
  ghost predicate Chain(buf: Buffer, pos: nat, end: nat, s: seq<Tlv>) {
    && (s == [] ==> pos >= end)
    && (s != [] ==> s[0].offset == pos && s[|s| - 1].End() >= end)
    && (forall i :: 0 <= i < |s| ==> s[i].offset + 2 <= s[i].contentStart <= |buf| && s[i].offset < end)
    && (forall i :: 0 <= i < |s| - 1 ==> s[i].End() == s[i + 1].offset)
  }

  /** A walk that completes has visited adjoining values that fill its range without a gap. */
  lemma {:induction false} SiblingsFillTheRange(buf: Buffer, pos: nat, end: nat)
    requires Siblings(buf, pos, end).Done?
    ensures Chain(buf, pos, end, Siblings(buf, pos, end).value)
    decreases end - pos
  {
    if pos < end {
      var tlv := ParseTlv(buf, pos).value;
      SiblingsFillTheRange(buf, tlv.End(), end);
      var rest := Siblings(buf, tlv.End(), end).value;
      var s := [tlv] + rest;
      assert forall i :: 0 < i < |s| ==> s[i] == rest[i - 1];
      assert rest != [] ==> s[|s| - 1] == rest[|rest| - 1];
    }
  }

  /** The headers that a walk reads until it reaches `end`, a header that does not parse, or an overflow. */
  function Trace(buf: Buffer, pos: nat, end: nat): seq<Tlv>
    decreases end - pos
  {
    if pos >= end then []
    else
      match ParseTlv(buf, pos)
      case None => []
      case Some(tlv) => [tlv] + if tlv.End() < WORD then Trace(buf, tlv.End(), end) else []
  }

  /** A completed walk has read exactly the values it visited. */
  lemma {:induction false} SiblingsAreTrace(buf: Buffer, pos: nat, end: nat)
    requires Siblings(buf, pos, end).Done?
    ensures Siblings(buf, pos, end).value == Trace(buf, pos, end)
    decreases end - pos
  {
    if pos < end {
      SiblingsAreTrace(buf, ParseTlv(buf, pos).value.End(), end);
    }
  }

  /** Completed or not, a walk reads adjoining headers, each of which starts in the buffer. */
  lemma {:induction false} TraceIsLinked(buf: Buffer, pos: nat, end: nat, k: nat)
    requires k < |Trace(buf, pos, end)|
    ensures var headers := Trace(buf, pos, end);
            && ParseTlv(buf, headers[k].offset) == Some(headers[k]) && headers[k].offset < end
            && headers[k].offset == if k == 0 then pos else headers[k - 1].End()
    decreases end - pos
  {
    if k > 0 {
      TraceIsLinked(buf, ParseTlv(buf, pos).value.End(), end, k - 1);
    }
  }

  /** Values earlier in a walk end before later ones begin, and all but the last lie in the buffer. */
  lemma {:induction false} SiblingsAreDisjoint(buf: Buffer, pos: nat, end: nat, s: seq<Tlv>, i: nat, j: nat)
    requires Chain(buf, pos, end, s) && i < j < |s|
    ensures s[i].offset + 2 <= s[i].End() <= s[j].offset < |buf|
    decreases j - i
  {
    if j > i + 1 {
      SiblingsAreDisjoint(buf, pos, end, s, i, j - 1);
    }
    assert s[j - 1].End() == s[j].offset;
  }

  /** Length fields of at most seven bytes never overflow a position. */
  lemma NarrowLengthAdvances(buf: Buffer, pos: nat)
    requires ParseTlv(buf, pos).Some? && LengthBytes(buf[pos + 1]) <= 7
    ensures Advance(ParseTlv(buf, pos).value).Done?
    ensures ParseTlv(buf, pos).value.End() >= pos + 2
  {
    var n := LengthBytes(buf[pos + 1]);
    NumberBound(buf[pos + 2..pos + 2 + n]);
    PowMonotone(256, n, 7);
    assert Pow(256, 7) == 0x100_0000_0000_0000 by {
      assert Pow(256, 2) == 0x1_0000;
      PowAdd(256, 2, 2);
      PowAdd(256, 4, 3);
      PowAdd(256, 2, 1);
      assert Pow(256, 1) == 256;
    }
    ModBelow(ToNat(buf[pos + 2..pos + 2 + n]));
  }

  lemma ModBelow(n: nat)
    ensures n % WORD <= n
  {
  }

  lemma {:induction false} NumberBound(bytes: seq<byte>)
    ensures ToNat(bytes) < Pow(256, |bytes|)
  {
    if bytes != [] {
      NumberBound(bytes[..|bytes| - 1]);
    }
  }

  ghost predicate AllNarrow(buf: Buffer) {
    forall p :: 0 <= p < |buf| - 1 && ParseTlv(buf, p).Some? ==> LengthBytes(buf[p + 1]) <= 7
  }

  /** So on a buffer with such fields a walk never overflows: it completes or reports an error. */
  lemma {:induction false} NarrowWalkIsSafe(buf: Buffer, pos: nat, end: nat)
    requires AllNarrow(buf)
    ensures !Siblings(buf, pos, end).Overflowed?
    decreases end - pos
  {
    if pos < end && ParseTlv(buf, pos).Some? {
      NarrowLengthAdvances(buf, pos);
      NarrowWalkIsSafe(buf, ParseTlv(buf, pos).value.End(), end);
    }
  }

  // ----- a build without overflow checks, where the sum wraps

  function WrappedNext(tlv: Tlv): (next: nat)
    ensures next < WORD
    ensures tlv.End() < WORD ==> next == tlv.End()
  {
    tlv.End() % WORD
  }

  /** There a step passes the header it has read if and only if its sum fits the machine word. */
  lemma WrappedStepPassesHeader(buf: Buffer, pos: nat)
    requires ParseTlv(buf, pos).Some?
    ensures WrappedNext(ParseTlv(buf, pos).value) >= ParseTlv(buf, pos).value.contentStart
       <==> ParseTlv(buf, pos).value.End() < WORD
  {
    var tlv := ParseTlv(buf, pos).value;
    if tlv.End() >= WORD {
      assert tlv.End() - WORD < tlv.contentStart;
      assert (tlv.End() - WORD + WORD) % WORD == tlv.End() - WORD;
    }
  }

  // ----- loops that can leave their walk at a header

  /** The headers at which a loop returns. */
  type Stop = Tlv -> bool

  /** In a build with overflow checks, the loop comes to a sum that overflows. */
  predicate Overflows(buf: Buffer, pos: nat, end: nat, stop: Stop)
    decreases end - pos
  {
    && pos < end && ParseTlv(buf, pos).Some?
    && var tlv := ParseTlv(buf, pos).value;
       !stop(tlv) && (tlv.End() >= WORD || Overflows(buf, tlv.End(), end, stop))
  }

  /** The headers that the loop steps over there. */
  function Steps(buf: Buffer, pos: nat, end: nat, stop: Stop): seq<Tlv>
    decreases end - pos
  {
    if pos >= end then []
    else
      match ParseTlv(buf, pos)
      case None => []
      case Some(tlv) => if stop(tlv) || tlv.End() >= WORD then [] else [tlv] + Steps(buf, tlv.End(), end, stop)
  }

  /** The headers that the wrapping loop steps over in at most so many rounds. */
  function WrappedSteps(buf: Buffer, pos: nat, end: nat, stop: Stop, rounds: nat): seq<Tlv>
    decreases rounds
  {
    if pos >= end || rounds == 0 then []
    else
      match ParseTlv(buf, pos)
      case None => []
      case Some(tlv) => if stop(tlv) then [] else [tlv] + WrappedSteps(buf, WrappedNext(tlv), end, stop, rounds - 1)
  }

  /** Where the wrapping loop stands after stepping so many times; none if it has ended by then. */
  function WrappedAfter(buf: Buffer, pos: nat, end: nat, stop: Stop, rounds: nat): Option<nat>
    decreases rounds
  {
    if pos >= end then None
    else
      match ParseTlv(buf, pos)
      case None => None
      case Some(tlv) =>
        if stop(tlv) then None
        else if rounds == 0 then Some(pos)
        else WrappedAfter(buf, WrappedNext(tlv), end, stop, rounds - 1)
  }

  /** A loop that does not overflow takes its first step to the end of the first value. */
  lemma FirstStep(buf: Buffer, pos: nat, end: nat, stop: Stop)
    requires pos < end && ParseTlv(buf, pos).Some? && !stop(ParseTlv(buf, pos).value) && !Overflows(buf, pos, end, stop)
    ensures var tlv := ParseTlv(buf, pos).value;
            && WrappedNext(tlv) == tlv.End() < WORD && pos < tlv.End()
            && !Overflows(buf, tlv.End(), end, stop)
  {
    hide ParseTlv, WrappedNext;
  }

  /** Unless a sum overflows, the wrapping loop steps over the same headers. */
  lemma {:induction false} WrappedWalkIsSame(buf: Buffer, pos: nat, end: nat, stop: Stop, rounds: nat)
    requires !Overflows(buf, pos, end, stop) && pos + rounds >= |buf|
    ensures WrappedSteps(buf, pos, end, stop, rounds) == Steps(buf, pos, end, stop)
    decreases rounds
  {
    hide ParseTlv, WrappedNext, Overflows;
    if pos < end && ParseTlv(buf, pos).Some? && !stop(ParseTlv(buf, pos).value) {
      FirstStep(buf, pos, end, stop);
      WrappedWalkIsSame(buf, ParseTlv(buf, pos).value.End(), end, stop, rounds - 1);
    }
  }

  /** And it ends. */
  lemma {:induction false} WrappedWalkEnds(buf: Buffer, pos: nat, end: nat, stop: Stop, rounds: nat)
    requires !Overflows(buf, pos, end, stop) && pos + rounds >= |buf|
    ensures WrappedAfter(buf, pos, end, stop, rounds) == None
    decreases rounds
  {
    hide ParseTlv, WrappedNext, Overflows;
    if pos < end && ParseTlv(buf, pos).Some? && !stop(ParseTlv(buf, pos).value) {
      FirstStep(buf, pos, end, stop);
      WrappedWalkEnds(buf, ParseTlv(buf, pos).value.End(), end, stop, rounds - 1);
    }
  }

  /** Every one of the headers is passed by the step over it. */
  ghost predicate PassesAll(headers: seq<Tlv>) {
    forall k :: 0 <= k < |headers| ==> WrappedNext(headers[k]) >= headers[k].contentStart
  }

  lemma PassesAllAfterFirst(first: Tlv, others: seq<Tlv>)
    ensures PassesAll([first] + others) <==> WrappedNext(first) >= first.contentStart && PassesAll(others)
  {
    var all := [first] + others;
    if PassesAll(all) {
      assert all[0] == first;
      assert forall k :: 0 <= k < |others| ==> others[k] == all[k + 1];
    }
  }

  /** Each step of the wrapping loop passes its header if and only if no sum of the loop overflows. */
  lemma {:induction false} WrappedWalkPassesIff(buf: Buffer, pos: nat, end: nat, stop: Stop, rounds: nat)
    requires pos + rounds >= |buf|
    ensures PassesAll(WrappedSteps(buf, pos, end, stop, rounds)) <==> !Overflows(buf, pos, end, stop)
    decreases rounds
  {
    hide ParseTlv, WrappedNext;
    if pos < end && ParseTlv(buf, pos).Some? && !stop(ParseTlv(buf, pos).value) {
      var tlv := ParseTlv(buf, pos).value;
      WrappedStepPassesHeader(buf, pos);
      PassesAllAfterFirst(tlv, WrappedSteps(buf, WrappedNext(tlv), end, stop, rounds - 1));
      hide PassesAll;
      if tlv.End() < WORD {
        WrappedWalkPassesIff(buf, tlv.End(), end, stop, rounds - 1);
      }
    }
  }

  // ----- when a wrapping loop ends

  lemma {:induction false} WrappedAfterSum(buf: Buffer, pos: nat, end: nat, stop: Stop, first: nat, more: nat)
    requires WrappedAfter(buf, pos, end, stop, first).Some?
    ensures WrappedAfter(buf, pos, end, stop, first + more)
         == WrappedAfter(buf, WrappedAfter(buf, pos, end, stop, first).value, end, stop, more)
    decreases first
  {
    hide ParseTlv, WrappedNext;
    if first > 0 {
      WrappedAfterSum(buf, WrappedNext(ParseTlv(buf, pos).value), end, stop, first - 1, more);
    }
  }

  lemma {:induction false} WrappedAfterPrefix(buf: Buffer, pos: nat, end: nat, stop: Stop, rounds: nat, fewer: nat)
    requires WrappedAfter(buf, pos, end, stop, rounds).Some? && fewer <= rounds
    ensures WrappedAfter(buf, pos, end, stop, fewer).Some? && WrappedAfter(buf, pos, end, stop, fewer).value < |buf|
    decreases fewer
  {
    hide ParseTlv, WrappedNext;
    if fewer > 0 {
      WrappedAfterPrefix(buf, WrappedNext(ParseTlv(buf, pos).value), end, stop, rounds - 1, fewer - 1);
    }
  }

  /** A loop that comes back to a position goes round for ever. */
  lemma {:induction false} RepeatsForEver(buf: Buffer, pos: nat, end: nat, stop: Stop, period: nat, rounds: nat)
    requires period > 0 && WrappedAfter(buf, pos, end, stop, period) == Some(pos)
    ensures WrappedAfter(buf, pos, end, stop, rounds).Some?
  {
    if rounds <= period {
      WrappedAfterPrefix(buf, pos, end, stop, period, rounds);
    } else {
      RepeatsForEver(buf, pos, end, stop, period, rounds - period);
      WrappedAfterSum(buf, pos, end, stop, period, rounds - period);
    }
  }

  lemma {:induction false} DistinctBelow(values: seq<nat>, bound: nat)
    requires forall i :: 0 <= i < |values| ==> values[i] < bound
    requires forall i, j :: 0 <= i < j < |values| ==> values[i] != values[j]
    ensures |values| <= bound
    decreases bound
  {
    var first := if values == [] then 0 else values[0];
    if bound == 0 {
      assert values == [] || first < bound;
    } else if k :| 0 <= k < |values| && values[k] == bound - 1 {
      DistinctBelow(values[..k] + values[k + 1..], bound - 1);
    } else {
      DistinctBelow(values, bound - 1);
    }
  }

  /** More positions than there are bytes: two of them are the same. */
  lemma PositionsRepeat(values: seq<nat>, bound: nat) returns (i: nat, j: nat)
    requires |values| > bound && forall i :: 0 <= i < |values| ==> values[i] < bound
    ensures i < j < |values| && values[i] == values[j]
  {
    if forall x, y :: 0 <= x < y < |values| ==> values[x] != values[y] {
      DistinctBelow(values, bound);
      assert false;
    }
    i, j :| 0 <= i < j < |values| && values[i] == values[j];
  }

  /** A wrapping loop that has not ended after as many rounds as the buffer has bytes never ends. */
  lemma NeverEnds(buf: Buffer, pos: nat, end: nat, stop: Stop, rounds: nat)
    requires WrappedAfter(buf, pos, end, stop, |buf|).Some?
    ensures WrappedAfter(buf, pos, end, stop, rounds).Some?
  {
    hide WrappedAfter, ParseTlv;
    forall k | 0 <= k <= |buf|
      ensures WrappedAfter(buf, pos, end, stop, k).Some? && WrappedAfter(buf, pos, end, stop, k).value < |buf|
    {
      WrappedAfterPrefix(buf, pos, end, stop, |buf|, k);
    }
    var positions: seq<nat> := seq(|buf| + 1, k requires 0 <= k <= |buf| => WrappedAfter(buf, pos, end, stop, k).value);
    var i, j := PositionsRepeat(positions, |buf|);
    WrappedAfterSum(buf, pos, end, stop, i, j - i);
    if rounds <= i {
      WrappedAfterPrefix(buf, pos, end, stop, i, rounds);
    } else {
      RepeatsForEver(buf, positions[i], end, stop, j - i, rounds - i);
      WrappedAfterSum(buf, pos, end, stop, i, rounds - i);
    }
  }

  /** If a wrapping loop ends at all, it has ended after as many rounds as the buffer has bytes. */
  lemma WrappedWalkEndsIff(buf: Buffer, pos: nat, end: nat, stop: Stop)
    ensures (exists rounds: nat :: WrappedAfter(buf, pos, end, stop, rounds) == None)
       <==> WrappedAfter(buf, pos, end, stop, |buf|) == None
  {
    hide WrappedAfter;
    if WrappedAfter(buf, pos, end, stop, |buf|).Some? {
      forall rounds: nat
        ensures WrappedAfter(buf, pos, end, stop, rounds).Some?
      {
        NeverEnds(buf, pos, end, stop, rounds);
      }
    }
  }
}
