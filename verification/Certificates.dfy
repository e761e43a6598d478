/** `certificates.rs`: choosing the CSCA certificate for a document, and the hash texts it compares. */
module Certificates {
  import opened Wrappers
  import opened Text
  import opened Hex

  // ----- hash texts

  function Strip0x(value: string): string {
    if StartsWith(value, "0x") then value[2..] else value
  }

  function NormalizeHash(value: string): string {
    "0x" + PadLeft(LowerAll(Strip0x(value)), 64)
  }

  lemma NormalizeHashIsIdempotent(value: string)
    ensures NormalizeHash(NormalizeHash(value)) == NormalizeHash(value)
  {
    var digits := PadLeft(LowerAll(Strip0x(value)), 64);
    assert Strip0x("0x" + digits) == digits;
    PaddedStaysLower(LowerAll(Strip0x(value)));
    LowerIsLower(Strip0x(value));
    LowerOfLower(digits);
  }

  lemma LowerIsLower(s: string)
    ensures IsLower(LowerAll(s))
  {
  }

  lemma LowerOfLower(s: string)
    requires IsLower(s)
    ensures LowerAll(s) == s
  {
  }

  lemma PaddedStaysLower(s: string)
    ensures IsLower(s) ==> IsLower(PadLeft(s, 64))
  {
  }

  function PaddedLength(s: string): nat {
    if |s| < 64 then 64 else |s|
  }

  /**
   * Two hexadecimal texts, with or without `0x`, normalise equally exactly when they denote the same
   * number, in the same number of digits if one has more than 64.
   */
  lemma NormalizesEquallyIff(a: string, b: string)
    requires AllHex(Strip0x(a)) && AllHex(Strip0x(b))
    ensures NormalizeHash(a) == NormalizeHash(b)
       <==> HexValue(Strip0x(a)) == HexValue(Strip0x(b)) && PaddedLength(Strip0x(a)) == PaddedLength(Strip0x(b))
  {
    hide Strip0x, HexValue;
    NormalDigits(Strip0x(a));
    NormalDigits(Strip0x(b));
    var x, y := PadLeft(LowerAll(Strip0x(a)), 64), PadLeft(LowerAll(Strip0x(b)), 64);
    assert ("0x" + x)[2..] == x && ("0x" + y)[2..] == y;
    if HexValue(x) == HexValue(y) && |x| == |y| {
      HexIsInjective(x, y);
    }
  }

  lemma NormalDigits(s: string)
    requires AllHex(s)
    ensures var r := PadLeft(LowerAll(s), 64);
            AllHex(r) && IsLower(r) && HexValue(r) == HexValue(s) && |r| == PaddedLength(s)
  {
    LowerKeepsValue(s);
    LowerIsLower(s);
    PaddedStaysLower(LowerAll(s));
    PadKeepsValue(LowerAll(s), 64);
  }

  /** `text` is a hexadecimal numeral with these digits, with or without `0x` in front. */
  predicate IsNumeral(text: string, digits: string) {
    AllHex(digits) && (text == digits || text == "0x" + digits)
  }

  lemma StripNumeral(text: string, digits: string)
    requires IsNumeral(text, digits)
    ensures Strip0x(text) == digits && AllHex(digits)
  {
    if text == digits && |text| >= 2 {
      assert IsHexDigit(digits[1]) && text[..2][1] == digits[1];
    }
  }

  /** The same number; texts of more than 64 digits must also be equally long. */
  ghost predicate SameNumber(a: string, b: string) {
    exists x, y :: (
      && IsNumeral(a, x) && IsNumeral(b, y) && HexValue(x) == HexValue(y)
      && (|x| == |y| || (|x| <= 64 && |y| <= 64)))
  }

  ghost predicate IsHexText(text: string) {
    exists digits :: IsNumeral(text, digits)
  }

  /** The digits of a numeral are unique. */
  lemma SameNumberOf(a: string, b: string, x: string, y: string)
    requires IsNumeral(a, x) && IsNumeral(b, y)
    ensures SameNumber(a, b) <==> HexValue(x) == HexValue(y) && (|x| == |y| || (|x| <= 64 && |y| <= 64))
  {
    hide HexValue, Strip0x;
    StripNumeral(a, x);
    StripNumeral(b, y);
    if SameNumber(a, b) {
      var v, w :| IsNumeral(a, v) && IsNumeral(b, w) && HexValue(v) == HexValue(w)
                  && (|v| == |w| || (|v| <= 64 && |w| <= 64));
      StripNumeral(a, v);
      StripNumeral(b, w);
    }
  }

  lemma SameNumberIff(a: string, b: string)
    requires IsHexText(a) && IsHexText(b)
    ensures NormalizeHash(a) == NormalizeHash(b) <==> SameNumber(a, b)
  {
    var x :| IsNumeral(a, x);
    var y :| IsNumeral(b, y);
    hide NormalizeHash, HexValue, Strip0x, SameNumber;
    StripNumeral(a, x);
    StripNumeral(b, y);
    NormalizesEquallyIff(a, b);
    SameNumberOf(a, b, x, y);
  }

  predicate EqIgnoreAsciiCase(a: string, b: string) {
    |a| == |b| && forall i :: 0 <= i < |a| ==> Lower(a[i]) == Lower(b[i])
  }

  // ----- candidates

  /** `rest` stands for the members that the selection does not look at. */
  datatype Certificate = Certificate(
    country: string, signatureAlgorithm: string, subjectKeyIdentifier: Option<string>, rest: string)

  datatype Analysis = Analysis(
    dscCountry: string, dscAuthorityKeyIdentifier: Option<string>, dscParentSignatureAlgorithm: string)

  predicate SameCountry(cert: Certificate, analysis: Analysis) {
    EqIgnoreAsciiCase(cert.country, analysis.dscCountry)
  }

  predicate MatchesAki(cert: Certificate, analysis: Analysis) {
    && analysis.dscAuthorityKeyIdentifier.Some? && cert.subjectKeyIdentifier.Some?
    && NormalizeHash(cert.subjectKeyIdentifier.value) == NormalizeHash(analysis.dscAuthorityKeyIdentifier.value)
  }

  predicate MatchesAlgorithm(cert: Certificate, analysis: Analysis) {
    EqIgnoreAsciiCase(cert.signatureAlgorithm, analysis.dscParentSignatureAlgorithm)
  }

  datatype Test = InCountry | WithAki | WithAlgorithm | WithoutAlgorithm

  predicate Passes(cert: Certificate, analysis: Analysis, test: Test) {
    match test
    case InCountry => SameCountry(cert, analysis)
    case WithAki => MatchesAki(cert, analysis)
    case WithAlgorithm => MatchesAlgorithm(cert, analysis)
    case WithoutAlgorithm => !MatchesAlgorithm(cert, analysis)
  }

  /** The certificates that pass, in their order. */
  function Filter(certs: seq<Certificate>, analysis: Analysis, test: Test): (kept: seq<Certificate>)
    ensures |kept| <= |certs|
    ensures forall cert :: cert in kept ==> Passes(cert, analysis, test)
  {
    if certs == [] then []
    else
      var k := |certs| - 1;
      var kept := Filter(certs[..k], analysis, test);
      if Passes(certs[k], analysis, test) then kept + [certs[k]] else kept
  }

  lemma FilterNext(certs: seq<Certificate>, analysis: Analysis, test: Test, k: nat)
    requires k < |certs|
    ensures Filter(certs[..k + 1], analysis, test)
         == if Passes(certs[k], analysis, test) then Filter(certs[..k], analysis, test) + [certs[k]]
            else Filter(certs[..k], analysis, test)
  {
    assert certs[..k + 1][..k] == certs[..k];
  }

  /** A stable sort by a key that is 0 for a matching algorithm and 1 otherwise. */
  function Ranked(certs: seq<Certificate>, analysis: Analysis): seq<Certificate> {
    Filter(certs, analysis, WithAlgorithm) + Filter(certs, analysis, WithoutAlgorithm)
  }

  function Key(cert: Certificate, analysis: Analysis): nat {
    if MatchesAlgorithm(cert, analysis) then 0 else 1
  }

  /** Keys 0, then keys 1: a new key goes behind its equals. */
  lemma KeyBoundary(keys: seq<nat>, n: nat, key: nat, j: nat)
    requires n <= |keys| && forall i :: 0 <= i < |keys| ==> keys[i] == if i < n then 0 else 1
    requires key <= 1 && j <= |keys|
    requires (j < |keys| ==> keys[j] > key) && (j > 0 ==> keys[j - 1] <= key)
    ensures j == if key == 0 then n else |keys|
  {
  }

  /** Putting one more certificate behind the last one whose key is not greater. */
  lemma RankedNext(certs: seq<Certificate>, analysis: Analysis, k: nat, j: nat)
    requires k < |certs|
    requires var ranked := Ranked(certs[..k], analysis);
             && j <= |ranked|
             && (forall i :: j <= i < |ranked| ==> Key(ranked[i], analysis) > Key(certs[k], analysis))
             && (j > 0 ==> Key(ranked[j - 1], analysis) <= Key(certs[k], analysis))
    ensures var ranked := Ranked(certs[..k], analysis);
            Ranked(certs[..k + 1], analysis) == ranked[..j] + [certs[k]] + ranked[j..]
  {
    hide Filter, MatchesAlgorithm;
    var matching, others := Filter(certs[..k], analysis, WithAlgorithm), Filter(certs[..k], analysis, WithoutAlgorithm);
    var ranked := matching + others;
    FilterNext(certs, analysis, WithAlgorithm, k);
    FilterNext(certs, analysis, WithoutAlgorithm, k);
    KeysOfRanked(certs[..k], analysis);
    var keys := seq(|ranked|, i requires 0 <= i < |ranked| => Key(ranked[i], analysis));
    KeyBoundary(keys, |matching|, Key(certs[k], analysis), j);
    Placed(matching, others, certs[k], MatchesAlgorithm(certs[k], analysis), j);
  }

  lemma Placed<T>(first: seq<T>, second: seq<T>, x: T, inFirst: bool, j: nat)
    requires j == if inFirst then |first| else |first + second|
    ensures (first + second)[..j] + [x] + (first + second)[j..]
         == if inFirst then (first + [x]) + second else first + (second + [x])
  {
  }

  lemma Moved<T>(after: seq<T>, ranked: seq<T>, x: T, j: nat)
    requires j <= |ranked| < |after| && after[j] == x && forall i :: 0 <= i < j ==> after[i] == ranked[i]
    requires forall i :: j <= i < |ranked| ==> after[i + 1] == ranked[i]
    ensures after[..|ranked| + 1] == ranked[..j] + [x] + ranked[j..]
  {
  }

  lemma KeysOfRanked(certs: seq<Certificate>, analysis: Analysis)
    ensures var ranked, n := Ranked(certs, analysis), |Filter(certs, analysis, WithAlgorithm)|;
            forall i :: 0 <= i < |ranked| ==> Key(ranked[i], analysis) == if i < n then 0 else 1
  {
    hide Filter;
    var matching, others := Filter(certs, analysis, WithAlgorithm), Filter(certs, analysis, WithoutAlgorithm);
    forall i | 0 <= i < |matching + others|
      ensures Key((matching + others)[i], analysis) == if i < |matching| then 0 else 1
    {
      if i < |matching| {
        assert matching[i] in matching;
      } else {
        assert others[i - |matching|] in others;
      }
    }
  }

  method SortCandidateCertificates(certs: array<Certificate>, analysis: Analysis)
    modifies certs
    ensures certs[..] == Ranked(old(certs[..]), analysis)
  {
    ghost var was := certs[..];
    var n := 0;
    assert certs[..0] == [];
    while n < certs.Length
      invariant n <= certs.Length
      invariant certs[..n] == Ranked(was[..n], analysis)
      invariant forall i :: n <= i < certs.Length ==> certs[i] == was[i]
    {
      InsertCandidate(certs, analysis, n, was);
      n := n + 1;
    }
    assert certs[..certs.Length] == certs[..] && was[..certs.Length] == was;
  }

  /** What the shifted list is, by its elements. */
  lemma Inserted(before: seq<Certificate>, after: seq<Certificate>, was: seq<Certificate>, analysis: Analysis, n: nat, j: nat)
    requires j <= n < |before| == |after| == |was|
    requires before[..n] == Ranked(was[..n], analysis)
    requires forall i :: 0 <= i < j ==> after[i] == before[i]
    requires after[j] == was[n]
    requires forall i :: j <= i < n ==> after[i + 1] == before[i] && Key(before[i], analysis) > Key(was[n], analysis)
    requires j > 0 ==> Key(before[j - 1], analysis) <= Key(was[n], analysis)
    ensures after[..n + 1] == Ranked(was[..n + 1], analysis)
  {
    hide Ranked, Key;
    var ranked := before[..n];
    assert forall i :: 0 <= i < n ==> ranked[i] == before[i];
    RankedNext(was, analysis, n, j);
    Moved(after, ranked, was[n], j);
  }

  /** Moves the certificate at `n` in front of those with a greater key. */
  method InsertCandidate(certs: array<Certificate>, analysis: Analysis, n: nat, ghost was: seq<Certificate>)
    requires n < certs.Length == |was|
    requires certs[..n] == Ranked(was[..n], analysis)
    requires forall i :: n <= i < certs.Length ==> certs[i] == was[i]
    modifies certs
    ensures certs[..n + 1] == Ranked(was[..n + 1], analysis)
    ensures forall i :: n < i < certs.Length ==> certs[i] == was[i]
  {
    hide Ranked, Key;
    ghost var before := certs[..];
    assert before[..n] == certs[..n];
    var cert := certs[n];
    var j := n;
    while j > 0 && Key(certs[j - 1], analysis) > Key(cert, analysis)
      invariant j <= n
      invariant forall i :: 0 <= i < j || n < i < certs.Length ==> certs[i] == before[i]
      invariant forall i :: j <= i < n ==> certs[i + 1] == before[i] && Key(before[i], analysis) > Key(cert, analysis)
    {
      certs[j] := certs[j - 1];
      j := j - 1;
    }
    certs[j] := cert;
    ghost var after := certs[..];
    assert forall i :: 0 <= i < certs.Length ==> after[i] == certs[i];
    Inserted(before, after, was, analysis, n, j);
    assert after[..n + 1] == certs[..n + 1];
  }

  // ----- the choice

  /** Smaller is better; 4 stands for another country. */
  function Rank(cert: Certificate, analysis: Analysis): nat {
    if !SameCountry(cert, analysis) then 4
    else if MatchesAki(cert, analysis) then (if MatchesAlgorithm(cert, analysis) then 0 else 1)
    else if MatchesAlgorithm(cert, analysis) then 2
    else 3
  }

  /** The first certificate of the best rank that any certificate of the country has. */
  ghost predicate IsChoice(certs: seq<Certificate>, analysis: Analysis, r: Option<Certificate>) {
    match r
    case None => forall j :: 0 <= j < |certs| ==> Rank(certs[j], analysis) == 4
    case Some(cert) =>
      exists i :: (
        && 0 <= i < |certs| && certs[i] == cert && Rank(cert, analysis) < 4
        && (forall j :: 0 <= j < i ==> Rank(certs[j], analysis) > Rank(cert, analysis))
        && (forall j :: i < j < |certs| ==> Rank(certs[j], analysis) >= Rank(cert, analysis)))
  }

  // ----- the choice by countries, numbers and algorithm names

  /** Equal but for the case of the letters A to Z. */
  predicate AlikeButForCase(a: string, b: string) {
    |a| == |b| && forall i :: 0 <= i < |a| ==>
      || a[i] == b[i]
      || ('A' <= a[i] <= 'Z' && b[i] as int == a[i] as int + 32)
      || ('A' <= b[i] <= 'Z' && a[i] as int == b[i] as int + 32)
  }

  lemma AlikeIff(a: string, b: string)
    ensures EqIgnoreAsciiCase(a, b) <==> AlikeButForCase(a, b)
  {
  }

  /** Of the document's country and, if that is asked for, with its authority key and its algorithm. */
  ghost predicate Meets(cert: Certificate, analysis: Analysis, key: bool, algorithm: bool) {
    && AlikeButForCase(cert.country, analysis.dscCountry)
    && (key ==>
          && cert.subjectKeyIdentifier.Some? && analysis.dscAuthorityKeyIdentifier.Some?
          && SameNumber(cert.subjectKeyIdentifier.value, analysis.dscAuthorityKeyIdentifier.value))
    && (algorithm ==> AlikeButForCase(cert.signatureAlgorithm, analysis.dscParentSignatureAlgorithm))
  }

  ghost predicate AnyMeets(certs: seq<Certificate>, analysis: Analysis, key: bool, algorithm: bool) {
    exists i :: 0 <= i < |certs| && Meets(certs[i], analysis, key, algorithm)
  }

  ghost predicate FirstToMeet(certs: seq<Certificate>, analysis: Analysis, key: bool, algorithm: bool, cert: Certificate) {
    exists i :: (
      && 0 <= i < |certs| && certs[i] == cert && Meets(certs[i], analysis, key, algorithm)
      && forall j :: 0 <= j < i ==> !Meets(certs[j], analysis, key, algorithm))
  }

  /** The first with key and algorithm, or else with the key, or else with the algorithm, or else of the country. */
  ghost predicate IsPreferred(certs: seq<Certificate>, analysis: Analysis, r: Option<Certificate>) {
    match r
    case None => !AnyMeets(certs, analysis, false, false)
    case Some(cert) =>
      if AnyMeets(certs, analysis, true, true) then FirstToMeet(certs, analysis, true, true, cert)
      else if AnyMeets(certs, analysis, true, false) then FirstToMeet(certs, analysis, true, false, cert)
      else if AnyMeets(certs, analysis, false, true) then FirstToMeet(certs, analysis, false, true, cert)
      else FirstToMeet(certs, analysis, false, false, cert)
  }

  ghost predicate HasHexText(id: Option<string>) {
    id.Some? ==> IsHexText(id.value)
  }

  /** All key identifiers are hexadecimal numerals. */
  ghost predicate HexKeys(certs: seq<Certificate>, analysis: Analysis) {
    && HasHexText(analysis.dscAuthorityKeyIdentifier)
    && forall i :: 0 <= i < |certs| ==> HasHexText(certs[i].subjectKeyIdentifier)
  }

  lemma RankMeets(cert: Certificate, analysis: Analysis)
    requires HasHexText(cert.subjectKeyIdentifier) && HasHexText(analysis.dscAuthorityKeyIdentifier)
    ensures Meets(cert, analysis, true, true) <==> Rank(cert, analysis) == 0
    ensures Meets(cert, analysis, true, false) <==> Rank(cert, analysis) <= 1
    ensures Meets(cert, analysis, false, true) <==> Rank(cert, analysis) == 0 || Rank(cert, analysis) == 2
    ensures Meets(cert, analysis, false, false) <==> Rank(cert, analysis) < 4
  {
    hide AlikeButForCase, EqIgnoreAsciiCase, SameNumber, NormalizeHash, IsHexText;
    AlikeIff(cert.country, analysis.dscCountry);
    AlikeIff(cert.signatureAlgorithm, analysis.dscParentSignatureAlgorithm);
    if cert.subjectKeyIdentifier.Some? && analysis.dscAuthorityKeyIdentifier.Some? {
      SameNumberIff(cert.subjectKeyIdentifier.value, analysis.dscAuthorityKeyIdentifier.value);
    }
  }

  lemma ChoiceIsPreferred(certs: seq<Certificate>, analysis: Analysis, r: Option<Certificate>)
    requires IsChoice(certs, analysis, r)
    ensures HexKeys(certs, analysis) ==> IsPreferred(certs, analysis, r)
  {
    hide Rank, Meets, HasHexText;
    if HexKeys(certs, analysis) {
      forall i | 0 <= i < |certs|
        ensures Meets(certs[i], analysis, true, true) <==> Rank(certs[i], analysis) == 0
        ensures Meets(certs[i], analysis, true, false) <==> Rank(certs[i], analysis) <= 1
        ensures Meets(certs[i], analysis, false, true) <==> Rank(certs[i], analysis) == 0 || Rank(certs[i], analysis) == 2
        ensures Meets(certs[i], analysis, false, false) <==> Rank(certs[i], analysis) < 4
      {
        RankMeets(certs[i], analysis);
      }
    }
  }

  // ----- filters in a row

  /** The tests that a certificate passes one after the other. */
  predicate PassesAll(cert: Certificate, analysis: Analysis, tests: seq<Test>) {
    forall t :: 0 <= t < |tests| ==> Passes(cert, analysis, tests[t])
  }

  function FilterAll(certs: seq<Certificate>, analysis: Analysis, tests: seq<Test>): seq<Certificate> {
    if tests == [] then certs
    else Filter(FilterAll(certs, analysis, tests[..|tests| - 1]), analysis, tests[|tests| - 1])
  }

  /** `cert` is the first of the list to pass. */
  ghost predicate IsFirst(certs: seq<Certificate>, analysis: Analysis, tests: seq<Test>, cert: Certificate) {
    exists i :: (
      && 0 <= i < |certs| && certs[i] == cert && PassesAll(cert, analysis, tests)
      && forall j :: 0 <= j < i ==> !PassesAll(certs[j], analysis, tests))
  }

  /** Filtering commutes with taking one more certificate. */
  lemma {:induction false} FilterAllNext(certs: seq<Certificate>, analysis: Analysis, tests: seq<Test>)
    requires certs != []
    ensures var k := |certs| - 1;
            FilterAll(certs, analysis, tests)
            == if PassesAll(certs[k], analysis, tests) then FilterAll(certs[..k], analysis, tests) + [certs[k]]
               else FilterAll(certs[..k], analysis, tests)
  {
    var k := |certs| - 1;
    if tests == [] {
      assert certs == certs[..k] + [certs[k]];
    } else {
      var last := |tests| - 1;
      FilterAllNext(certs, analysis, tests[..last]);
      PassesAllButLast(certs[k], analysis, tests);
      var before := FilterAll(certs[..k], analysis, tests[..last]);
      assert (before + [certs[k]])[..|before|] == before;
    }
  }

  lemma PassesAllButLast(cert: Certificate, analysis: Analysis, tests: seq<Test>)
    requires tests != []
    ensures PassesAll(cert, analysis, tests)
       <==> PassesAll(cert, analysis, tests[..|tests| - 1]) && Passes(cert, analysis, tests[|tests| - 1])
  {
    assert forall t :: 0 <= t < |tests| - 1 ==> tests[..|tests| - 1][t] == tests[t];
  }

  /** The head of a filtered list is the first to pass every test; an empty list says that none does. */
  lemma {:induction false} FilterAllFirst(certs: seq<Certificate>, analysis: Analysis, tests: seq<Test>)
    ensures var kept := FilterAll(certs, analysis, tests);
            if kept == [] then forall j :: 0 <= j < |certs| ==> !PassesAll(certs[j], analysis, tests)
            else IsFirst(certs, analysis, tests, kept[0])
  {
    hide PassesAll;
    if certs == [] {
      FilterNothing(analysis, tests);
    } else {
      var k := |certs| - 1;
      FilterAllNext(certs, analysis, tests);
      FilterAllFirst(certs[..k], analysis, tests);
      hide FilterAll;
      var before := FilterAll(certs[..k], analysis, tests);
      if before != [] {
        var i :| 0 <= i < k && certs[..k][i] == before[0] && PassesAll(before[0], analysis, tests)
                 && forall j :: 0 <= j < i ==> !PassesAll(certs[..k][j], analysis, tests);
        assert certs[i] == before[0];
        assert forall j :: 0 <= j < i ==> certs[j] == certs[..k][j];
      } else {
        assert forall j :: 0 <= j < k ==> certs[j] == certs[..k][j];
      }
    }
  }

  lemma {:induction false} FilterNothing(analysis: Analysis, tests: seq<Test>)
    ensures FilterAll([], analysis, tests) == []
  {
    if tests != [] {
      FilterNothing(analysis, tests[..|tests| - 1]);
    }
  }

  const NO_TESTS: seq<Test> := []
  const COUNTRY := NO_TESTS + [InCountry]
  const AKI := COUNTRY + [WithAki]
  const ALGORITHM := COUNTRY + [WithAlgorithm]
  const BOTH := AKI + [WithAlgorithm]

  lemma PassesAllAppend(cert: Certificate, analysis: Analysis, tests: seq<Test>, test: Test)
    ensures PassesAll(cert, analysis, tests + [test]) <==> PassesAll(cert, analysis, tests) && Passes(cert, analysis, test)
  {
    PassesAllButLast(cert, analysis, tests + [test]);
    assert (tests + [test])[..|tests|] == tests;
  }

  lemma FilterAllAppend(certs: seq<Certificate>, analysis: Analysis, tests: seq<Test>, test: Test)
    ensures FilterAll(certs, analysis, tests + [test]) == Filter(FilterAll(certs, analysis, tests), analysis, test)
  {
    assert (tests + [test])[..|tests|] == tests;
  }

  lemma {:induction false} FilterAllPassing(certs: seq<Certificate>, analysis: Analysis, test: Test)
    requires forall i :: 0 <= i < |certs| ==> Passes(certs[i], analysis, test)
    ensures Filter(certs, analysis, test) == certs
  {
    hide Passes;
    if certs != [] {
      FilterAllPassing(certs[..|certs| - 1], analysis, test);
      assert certs == certs[..|certs| - 1] + [certs[|certs| - 1]];
    }
  }

  lemma {:induction false} FilterEmptyIff(certs: seq<Certificate>, analysis: Analysis, test: Test)
    ensures Filter(certs, analysis, test) == [] <==> forall i :: 0 <= i < |certs| ==> !Passes(certs[i], analysis, test)
  {
    if certs != [] {
      FilterEmptyIff(certs[..|certs| - 1], analysis, test);
      assert certs == certs[..|certs| - 1] + [certs[|certs| - 1]];
    }
  }

  /** After the stable sort, the first match leads; without a match, the list's own head. */
  lemma RankedHead(list: seq<Certificate>, analysis: Analysis)
    requires list != []
    ensures Ranked(list, analysis) != []
    ensures var matching := Filter(list, analysis, WithAlgorithm);
            Ranked(list, analysis)[0] == if matching != [] then matching[0] else list[0]
  {
    hide Filter, MatchesAlgorithm;
    FilterEmptyIff(list, analysis, WithAlgorithm);
    if Filter(list, analysis, WithAlgorithm) == [] {
      FilterAllPassing(list, analysis, WithoutAlgorithm);
    }
  }

  method FirstCandidate(list: seq<Certificate>, analysis: Analysis) returns (r: Option<Certificate>)
    ensures r == if list == [] then None
                 else if Filter(list, analysis, WithAlgorithm) != [] then Some(Filter(list, analysis, WithAlgorithm)[0])
                 else Some(list[0])
  {
    hide Filter, Ranked;
    var candidates := new Certificate[|list|](i requires 0 <= i < |list| => list[i]);
    assert candidates[..] == list;
    SortCandidateCertificates(candidates, analysis);
    if candidates.Length == 0 {
      return None;
    }
    RankedHead(list, analysis);
    assert candidates[0] == candidates[..][0];
    return Some(candidates[0]);
  }

  lemma FirstIsChoice(certs: seq<Certificate>, analysis: Analysis, tests: seq<Test>, cert: Certificate, rank: nat)
    requires rank < 4 && IsFirst(certs, analysis, tests, cert)
    requires forall j :: 0 <= j < |certs| ==> Rank(certs[j], analysis) >= rank
    requires forall j :: 0 <= j < |certs| ==> (PassesAll(certs[j], analysis, tests) <==> Rank(certs[j], analysis) == rank)
    ensures IsChoice(certs, analysis, Some(cert))
  {
    hide PassesAll, Rank;
  }

  /** Each rank, as the tests that lead to it among certificates of no better rank. */
  lemma RanksAsTests(cert: Certificate, analysis: Analysis)
    ensures PassesAll(cert, analysis, BOTH) <==> Rank(cert, analysis) == 0
    ensures PassesAll(cert, analysis, AKI) <==> Rank(cert, analysis) <= 1
    ensures PassesAll(cert, analysis, ALGORITHM) <==> Rank(cert, analysis) == 0 || Rank(cert, analysis) == 2
    ensures PassesAll(cert, analysis, COUNTRY) <==> Rank(cert, analysis) < 4
  {
    hide SameCountry, MatchesAki, MatchesAlgorithm, PassesAll;
    PassesAllAppend(cert, analysis, NO_TESTS, InCountry);
    PassesAllAppend(cert, analysis, COUNTRY, WithAki);
    PassesAllAppend(cert, analysis, COUNTRY, WithAlgorithm);
    PassesAllAppend(cert, analysis, AKI, WithAlgorithm);
    PassesNone(cert, analysis);
  }

  lemma PassesNone(cert: Certificate, analysis: Analysis)
    ensures PassesAll(cert, analysis, NO_TESTS)
  {
  }

  /** Filters and stable sorts amount to the first certificate of the best rank. */
  method ResolveCsca(analysis: Analysis, certs: seq<Certificate>) returns (r: Option<Certificate>)
    ensures IsChoice(certs, analysis, r)
    ensures HexKeys(certs, analysis) ==> IsPreferred(certs, analysis, r)
  {
    hide Filter, FilterAll, Rank, PassesAll, IsFirst, IsChoice, HexKeys, IsPreferred;
    var sameCountry := Filter(certs, analysis, InCountry);
    FilteredLists(certs, analysis);
    if sameCountry == [] {
      NoChoice(certs, analysis);
      ChoiceIsPreferred(certs, analysis, None);
      return None;
    }
    var akiMatches := Filter(sameCountry, analysis, WithAki);
    r := FirstCandidate(akiMatches, analysis);
    if r == None {
      r := FirstCandidate(sameCountry, analysis);
      SecondChoice(certs, analysis, r.value);
    } else {
      FirstChoice(certs, analysis, r.value);
    }
    ChoiceIsPreferred(certs, analysis, r);
  }

  lemma FilteredLists(certs: seq<Certificate>, analysis: Analysis)
    ensures FilterAll(certs, analysis, COUNTRY) == Filter(certs, analysis, InCountry)
    ensures FilterAll(certs, analysis, AKI) == Filter(Filter(certs, analysis, InCountry), analysis, WithAki)
    ensures FilterAll(certs, analysis, ALGORITHM)
         == Filter(Filter(certs, analysis, InCountry), analysis, WithAlgorithm)
    ensures FilterAll(certs, analysis, BOTH)
         == Filter(Filter(Filter(certs, analysis, InCountry), analysis, WithAki), analysis, WithAlgorithm)
  {
    hide Filter;
    FilterAllAppend(certs, analysis, NO_TESTS, InCountry);
    FilterAllAppend(certs, analysis, COUNTRY, WithAki);
    FilterAllAppend(certs, analysis, COUNTRY, WithAlgorithm);
    FilterAllAppend(certs, analysis, AKI, WithAlgorithm);
  }

  lemma NoChoice(certs: seq<Certificate>, analysis: Analysis)
    requires FilterAll(certs, analysis, COUNTRY) == []
    ensures IsChoice(certs, analysis, None)
  {
    hide FilterAll, PassesAll, IsFirst;
    FilterAllFirst(certs, analysis, COUNTRY);
    forall j | 0 <= j < |certs|
      ensures Rank(certs[j], analysis) == 4
    {
      RanksAsTests(certs[j], analysis);
    }
  }

  /** A certificate with the document's authority key is there. */
  lemma FirstChoice(certs: seq<Certificate>, analysis: Analysis, cert: Certificate)
    requires var aki, both := FilterAll(certs, analysis, AKI), FilterAll(certs, analysis, BOTH);
             aki != [] && cert == if both != [] then both[0] else aki[0]
    ensures IsChoice(certs, analysis, Some(cert))
  {
    hide FilterAll, PassesAll, IsFirst, IsChoice, Rank;
    FilterAllFirst(certs, analysis, AKI);
    FilterAllFirst(certs, analysis, BOTH);
    forall j | 0 <= j < |certs|
      ensures PassesAll(certs[j], analysis, BOTH) <==> Rank(certs[j], analysis) == 0
      ensures PassesAll(certs[j], analysis, AKI) <==> Rank(certs[j], analysis) <= 1
    {
      RanksAsTests(certs[j], analysis);
    }
    if FilterAll(certs, analysis, BOTH) != [] {
      FirstIsChoice(certs, analysis, BOTH, cert, 0);
    } else {
      FirstIsChoice(certs, analysis, AKI, cert, 1);
    }
  }

  /** No certificate of the country has the document's authority key. */
  lemma SecondChoice(certs: seq<Certificate>, analysis: Analysis, cert: Certificate)
    requires FilterAll(certs, analysis, AKI) == []
    requires var country, matching := FilterAll(certs, analysis, COUNTRY), FilterAll(certs, analysis, ALGORITHM);
             country != [] && cert == if matching != [] then matching[0] else country[0]
    ensures IsChoice(certs, analysis, Some(cert))
  {
    hide FilterAll, PassesAll, IsFirst, IsChoice, Rank;
    FilterAllFirst(certs, analysis, AKI);
    FilterAllFirst(certs, analysis, ALGORITHM);
    FilterAllFirst(certs, analysis, COUNTRY);
    forall j | 0 <= j < |certs|
      ensures Rank(certs[j], analysis) > 1
      ensures PassesAll(certs[j], analysis, ALGORITHM) <==> Rank(certs[j], analysis) == 2
      ensures PassesAll(certs[j], analysis, COUNTRY) <==> Rank(certs[j], analysis) < 4
    {
      RanksAsTests(certs[j], analysis);
    }
    if FilterAll(certs, analysis, ALGORITHM) != [] {
      FirstIsChoice(certs, analysis, ALGORITHM, cert, 2);
    } else {
      FirstIsChoice(certs, analysis, COUNTRY, cert, 3);
    }
  }
}
