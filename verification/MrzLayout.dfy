/**
 * The layouts of ICAO Doc 9303 part 4 (TD3, passports) and part 5 (TD1, cards), and the proof that
 * the parser gives back every field that was laid out.
 */
module MrzLayout {
  import opened Bytes
  import opened Wrappers
  import opened Mrz
  import opened Text
  import Der

  function Fill(n: nat): string {
    seq(n, i => '<')
  }

  function Pad(s: string, width: nat): string {
    if |s| <= width then s + Fill(width - |s|) else s[..width]
  }

  /** The document number and the expiry date may also be filled up with another character. */
  function PadWith(s: string, width: nat, mark: char): string {
    if |s| <= width then s + seq(width - |s|, i => mark) else s[..width]
  }

  /** Words joined by one separator character. */
  function Joined(words: seq<string>, sep: char): string {
    if words == [] then ""
    else if |words| == 1 then words[0]
    else words[0] + [sep] + Joined(words[1..], sep)
  }

  /** Primary identifier, two fillers, secondary identifier; only the former when there is no other. */
  function Names(last: seq<string>, first: seq<string>): string {
    if first == [] then Joined(last, '<') else Joined(last, '<') + "<<" + Joined(first, '<')
  }

  /** What is printed on the document.  Check digits and optional data are arbitrary. */
  datatype Holder = Holder(
    issuingCountry: string,
    documentNumber: string,
    nationality: string,
    dateOfBirth: string,
    gender: string,
    expiryDate: string,
    last: seq<string>,
    first: seq<string>)

  /** Letters and digits: what a field may contain besides fillers. */
  predicate IsPlain(c: char) {
    'A' <= c <= 'Z' || '0' <= c <= '9'
  }

  ghost predicate Plain(s: string) {
    forall i :: 0 <= i < |s| ==> IsPlain(s[i])
  }

  /** Letters, digits and fillers. */
  ghost predicate Filled(s: string) {
    forall i :: 0 <= i < |s| ==> IsPlain(s[i]) || s[i] == '<'
  }

  /** What fills up a field: ICAO's filler, or the underscore of hand-made fixtures. */
  predicate IsMark(c: char) {
    c == '<' || c == '_'
  }

  ghost predicate Printable(s: string) {
    forall i :: 0 <= i < |s| ==> IsPlain(s[i]) || IsMark(s[i])
  }

  ghost predicate PlainWords(words: seq<string>) {
    forall i :: 0 <= i < |words| ==> words[i] != "" && Plain(words[i])
  }

  ghost predicate Printed(h: Holder, nameWidth: nat) {
    && Plain(h.issuingCountry) && |h.issuingCountry| <= 3
    && Plain(h.documentNumber) && |h.documentNumber| <= 9
    && Plain(h.nationality) && |h.nationality| <= 3
    && Plain(h.dateOfBirth) && |h.dateOfBirth| <= 6
    && Plain(h.gender) && |h.gender| <= 1
    && Plain(h.expiryDate) && |h.expiryDate| <= 6
    && PlainWords(h.last) && PlainWords(h.first) && |Names(h.last, h.first)| <= nameWidth
  }

  /** The fields as the rest of the prover expects them: names with spaces between their words. */
  function FieldsOf(h: Holder): MrzFields {
    MrzFields(
      h.issuingCountry, h.documentNumber, h.nationality, h.dateOfBirth, h.gender, h.expiryDate,
      Joined(h.last, ' '), Joined(h.first, ' '))
  }

  // ----- the layouts

  /** `free` holds the document subtype, three check digits, the personal number and two more digits. */
  function Td3(h: Holder, free: seq<string>, mark: char): string
    requires |free| == 5
  {
    "P" + (free[0] + (Pad(h.issuingCountry, 3) + (Pad(Names(h.last, h.first), 39) + Td3Lower(h, free, mark))))
  }

  function Td3Lower(h: Holder, free: seq<string>, mark: char): string
    requires |free| == 5
  {
    PadWith(h.documentNumber, 9, mark) + (free[1] + (Pad(h.nationality, 3) + (Pad(h.dateOfBirth, 6) + (free[2] +
      (Pad(h.gender, 1) + (PadWith(h.expiryDate, 6, mark) + (free[3] + free[4])))))))
  }

  /** Widths: subtype 1, check digits 1, 1 and 1, personal number and last check digits 16. */
  ghost predicate Td3Free(free: seq<string>) {
    && |free| == 5
    && |free[0]| == 1 && |free[1]| == 1 && |free[2]| == 1 && |free[3]| == 1 && |free[4]| == 16
    && forall i :: 0 <= i < 5 ==> Printable(free[i])
  }

  /** `free` holds the document code, check digits and optional data. */
  function Td1(h: Holder, free: seq<string>, mark: char): string
    requires |free| == 5
  {
    free[0] + (Pad(h.issuingCountry, 3) + (PadWith(h.documentNumber, 9, mark) + (free[1] + Td1Lower(h, free, mark))))
  }

  function Td1Lower(h: Holder, free: seq<string>, mark: char): string
    requires |free| == 5
  {
    Pad(h.dateOfBirth, 6) + (free[2] + (Pad(h.gender, 1) + (PadWith(h.expiryDate, 6, mark) + (free[3] +
      (Pad(h.nationality, 3) + (free[4] + Pad(Names(h.last, h.first), 30)))))))
  }

  /** Widths: document code 2, check digit and optional data 16, check digits 1 and 1, the rest 12. */
  ghost predicate Td1Free(free: seq<string>) {
    && |free| == 5
    && |free[0]| == 2 && |free[1]| == 16 && |free[2]| == 1 && |free[3]| == 1 && |free[4]| == 12
    && forall i :: 0 <= i < 5 ==> Printable(free[i])
  }

  // ----- fields

  lemma {:induction false} WithoutConcat(a: string, b: string, drop: set<char>)
    ensures Without(a + b, drop) == Without(a, drop) + Without(b, drop)
  {
    if a == "" {
      assert a + b == b;
    } else {
      assert (a + b)[1..] == a[1..] + b;
      WithoutConcat(a[1..], b, drop);
    }
  }

  lemma {:induction false} WithoutNothing(s: string, drop: set<char>)
    requires forall i :: 0 <= i < |s| ==> s[i] !in drop
    ensures Without(s, drop) == s
  {
    if s != "" {
      WithoutNothing(s[1..], drop);
    }
  }

  lemma {:induction false} WithoutMarks(marks: string, drop: set<char>)
    requires forall i :: 0 <= i < |marks| ==> marks[i] in drop
    ensures Without(marks, drop) == ""
  {
    if marks != "" {
      WithoutMarks(marks[1..], drop);
    }
  }

  /** Dropping the fillers gives back a padded field. */
  lemma FieldInverts(s: string, width: nat, drop: set<char>)
    requires Plain(s) && |s| <= width
    requires drop == FILLER || drop == FILLERS
    ensures Without(Pad(s, width), drop) == s
  {
    WithoutConcat(s, Fill(width - |s|), drop);
    WithoutNothing(s, drop);
    WithoutMarks(Fill(width - |s|), drop);
  }

  lemma MarkedInverts(s: string, width: nat, mark: char)
    requires Plain(s) && |s| <= width && IsMark(mark)
    ensures Without(PadWith(s, width, mark), FILLERS) == s
  {
    var marks := seq(width - |s|, i => mark);
    WithoutConcat(s, marks, FILLERS);
    WithoutNothing(s, FILLERS);
    WithoutMarks(marks, FILLERS);
  }

  lemma PadWithPrintable(s: string, width: nat, mark: char)
    requires Printable(s) && |s| <= width && IsMark(mark)
    ensures |PadWith(s, width, mark)| == width && Printable(PadWith(s, width, mark))
  {
  }

  lemma PadPrintable(s: string, width: nat)
    requires Printable(s) && |s| <= width
    ensures |Pad(s, width)| == width && Printable(Pad(s, width))
  {
  }

  // ----- line breaks and spaces, put into the text anywhere

  const BREAKS := {'\n', ' '}

  lemma CleanFirst(raw: string)
    requires raw != ""
    ensures Clean(raw) == if raw[0] in BREAKS then Clean(raw[1..]) else [raw[0]] + Clean(raw[1..])
  {
    var rest := Without(raw[1..], {'\n'});
    if raw[0] != '\n' {
      assert ([raw[0]] + rest)[1..] == rest;
    }
  }

  /** What the parser reads is the text that was broken up, and only that one. */
  lemma {:induction false} CleanIff(raw: string, text: string)
    ensures Clean(raw) == text <==> Interleaved(raw, text, BREAKS)
  {
    assert Clean("") == "";
    hide Clean;
    if raw != "" {
      CleanFirst(raw);
      if raw[0] in BREAKS {
        CleanIff(raw[1..], text);
      } else if text != "" {
        CleanIff(raw[1..], text[1..]);
        FirstAndRest(raw[0], Clean(raw[1..]), text);
      }
    }
  }

  lemma Unbroken(text: string)
    requires Printable(text)
    ensures Interleaved(text, text, BREAKS)
  {
    InterleavedSelf(text, BREAKS);
  }

  lemma PartsPrintable(a: string, b: string)
    ensures Printable(a + b) <==> Printable(a) && Printable(b)
  {
    assert forall i :: 0 <= i < |a| ==> (a + b)[i] == a[i];
    assert forall i :: 0 <= i < |b| ==> (a + b)[|a| + i] == b[i];
  }

  /** One more line. */
  lemma LineBreaks(raw: string, text: string, line: string)
    requires Interleaved(raw, text, BREAKS) && Printable(line)
    ensures Interleaved(raw + "\n" + line, text + line, BREAKS)
  {
    Unbroken(line);
    assert Interleaved("\n"[1..], "", BREAKS) && Interleaved("\n", "", BREAKS);
    InterleavedConcat(raw, text, "\n", "", BREAKS);
    assert text + "" == text;
    InterleavedConcat(raw + "\n", text, line, line, BREAKS);
  }

  lemma LinesBreak(upper: string, middle: string, lower: string)
    requires Printable(upper + middle + lower)
    ensures Interleaved(upper + "\n" + middle, upper + middle, BREAKS)
    ensures Interleaved(upper + "\n" + middle + "\n" + lower, upper + middle + lower, BREAKS)
  {
    hide Interleaved, Printable;
    PartsPrintable(upper + middle, lower);
    PartsPrintable(upper, middle);
    Unbroken(upper);
    LineBreaks(upper, upper, middle);
    LineBreaks(upper + "\n" + middle, upper + middle, lower);
  }

  // ----- names

  /** Text that neither starts nor ends with a filler and has no two adjoining ones. */
  ghost predicate SingleFillers(s: string) {
    && (s != "" ==> s[0] != '<' && s[|s| - 1] != '<')
    && forall i :: 0 < i < |s| && s[i] == '<' ==> s[i - 1] != '<'
  }

  lemma GlueShape(head: string, tail: string)
    requires head != "" && Plain(head)
    requires tail != "" && Filled(tail) && SingleFillers(tail)
    ensures Filled(head + ['<'] + tail) && SingleFillers(head + ['<'] + tail)
  {
    var s := head + ['<'] + tail;
    assert forall i :: 0 <= i < |head| ==> s[i] == head[i];
    assert forall i :: |head| < i < |s| ==> s[i] == tail[i - |head| - 1];
    assert s[|head|] == '<' && s[|head| - 1] != '<' && s[|head| + 1] == tail[0];
  }

  lemma {:induction false} JoinedShape(words: seq<string>)
    requires PlainWords(words)
    ensures Filled(Joined(words, '<')) && SingleFillers(Joined(words, '<'))
    ensures words != [] ==> Joined(words, '<') != ""
  {
    if |words| > 1 {
      JoinedShape(words[1..]);
      GlueShape(words[0], Joined(words[1..], '<'));
    }
  }

  lemma {:induction false} JoinedSpaced(words: seq<string>)
    requires PlainWords(words)
    ensures Spaced(Joined(words, '<')) == Joined(words, ' ')
  {
    if words == [] {
    } else {
      assert Spaced(words[0]) == words[0];
      if |words| > 1 {
        JoinedSpaced(words[1..]);
        SpacedConcat(words[0] + ['<'], Joined(words[1..], '<'));
        SpacedConcat(words[0], ['<']);
        assert Spaced(['<']) == [' '];
      }
    }
  }

  lemma SpacedConcat(a: string, b: string)
    ensures Spaced(a + b) == Spaced(a) + Spaced(b)
  {
  }

  lemma {:induction false} FindNone(s: string)
    requires forall i :: 0 < i < |s| && s[i] == '<' ==> s[i - 1] != '<'
    ensures FindFillers(s) == |s|
  {
    if |s| >= 2 {
      assert s[1] == '<' ==> s[0] != '<';
      assert forall i :: 0 < i < |s[1..]| ==> s[1..][i] == s[i + 1] && s[1..][i - 1] == s[i];
      FindNone(s[1..]);
    }
  }

  /** The first two adjoining fillers after `s` are the ones right behind it. */
  lemma {:induction false} FindAfter(s: string, rest: string)
    requires |rest| >= 2 && rest[0] == '<' && rest[1] == '<'
    requires forall i :: 0 < i < |s| && s[i] == '<' ==> s[i - 1] != '<'
    requires s != "" ==> s[|s| - 1] != '<'
    ensures FindFillers(s + rest) == |s|
  {
    if s == "" {
      assert s + rest == rest;
    } else {
      var all := s + rest;
      assert all[1..] == s[1..] + rest;
      assert |s| > 1 ==> (s[1] == '<' ==> s[0] != '<');
      assert forall i :: 0 < i < |s[1..]| ==> s[1..][i] == s[i + 1] && s[1..][i - 1] == s[i];
      FindAfter(s[1..], rest);
    }
  }

  lemma TrimEnds(s: string, tail: string)
    requires s != "" ==> !IsSpace(s[0]) && !IsSpace(s[|s| - 1])
    requires tail == "" || tail == " "
    ensures Trim(s + tail) == s
  {
    var all := s + tail;
    if tail == "" {
      assert all == s;
    } else {
      assert all[..|all| - 1] == s;
      if s == "" {
        assert all == " " && all[1..] == "";
        assert TrimStart(all) == TrimStart(all[1..]) == "";
      } else {
        assert all[0] == s[0];
        assert TrimStart(all) == all;
        assert TrimEnd(all) == TrimEnd(s) == s;
      }
    }
  }

  lemma FillShape(n: nat)
    ensures |Fill(n)| == n && forall i :: 0 <= i < n ==> Fill(n)[i] == '<'
  {
  }

  lemma FillTail(n: nat, k: nat)
    requires k <= n
    ensures Fill(n)[k..] == Fill(n - k)
  {
  }

  /** One identifier followed by any number of fillers: the part before the first two of them. */
  lemma IdentifierInverts(words: seq<string>, n: nat)
    requires PlainWords(words)
    ensures var s := Joined(words, '<') + Fill(n);
            Trim(Spaced(s[..FindFillers(s)])) == Joined(words, ' ')
  {
    hide Joined, PlainWords, Trim, Spaced, Fill;
    var w := Joined(words, '<');
    JoinedShape(words);
    var s := w + Fill(n);
    FillShape(n);
    if n >= 2 {
      FindAfter(w, Fill(n));
      assert s[..|w|] == w + "";
      IdentifierTrimmed(words, "");
    } else {
      FindNone(s);
      assert s[..|s|] == w + Fill(n);
      assert Fill(n) == if n == 0 then "" else "<";
      IdentifierTrimmed(words, Fill(n));
    }
  }

  lemma IdentifierTrimmed(words: seq<string>, tail: string)
    requires PlainWords(words) && (tail == "" || tail == "<")
    ensures Trim(Spaced(Joined(words, '<') + tail)) == Joined(words, ' ')
  {
    var w := Joined(words, '<');
    JoinedShape(words);
    JoinedSpaced(words);
    SpacedConcat(w, tail);
    assert w != "" ==> IsPlain(w[0]) && IsPlain(w[|w| - 1]);
    assert Spaced(tail) == if tail == "" then "" else " ";
    TrimEnds(Joined(words, ' '), Spaced(tail));
  }

  lemma FirstPart(s: string)
    ensures SplitFillers(s)[0] == s[..FindFillers(s)]
  {
  }

  lemma WholePart(s: string)
    requires FindFillers(s) == |s|
    ensures SplitFillers(s) == [s]
  {
  }

  lemma SecondPart(s: string)
    requires FindFillers(s) < |s|
    ensures |SplitFillers(s)| > 1 && SplitFillers(s)[1] == s[FindFillers(s) + 2..][..FindFillers(s[FindFillers(s) + 2..])]
  {
    FirstPart(s[FindFillers(s) + 2..]);
  }

  /** Both identifiers come back from a name field of any width that holds them. */
  lemma NamesInvert(last: seq<string>, first: seq<string>, width: nat)
    requires PlainWords(last) && PlainWords(first) && |Names(last, first)| <= width
    ensures var parts := SplitFillers(Pad(Names(last, first), width));
            NameIn(parts, 0) == Joined(last, ' ') && NameIn(parts, 1) == Joined(first, ' ')
  {
    hide Joined, PlainWords, SplitFillers, NameIn;
    var n := width - |Names(last, first)|;
    if first == [] {
      NoWords();
      OneIdentifier(last, n);
    } else {
      assert Pad(Names(last, first), width) == Joined(last, '<') + ("<<" + (Joined(first, '<') + Fill(n)));
      TwoIdentifiers(last, first, n);
    }
  }

  lemma NoWords()
    ensures Joined([], ' ') == ""
  {
  }

  lemma OneIdentifier(last: seq<string>, n: nat)
    requires PlainWords(last)
    ensures var parts := SplitFillers(Joined(last, '<') + Fill(n));
            NameIn(parts, 0) == Joined(last, ' ') && NameIn(parts, 1) == ""
  {
    hide Joined, PlainWords, SplitFillers;
    FirstPart(Joined(last, '<') + Fill(n));
    IdentifierInverts(last, n);
    NoSecondName(last, n);
  }

  lemma TwoIdentifiers(last: seq<string>, first: seq<string>, n: nat)
    requires PlainWords(last) && PlainWords(first)
    ensures var parts := SplitFillers(Joined(last, '<') + ("<<" + (Joined(first, '<') + Fill(n))));
            NameIn(parts, 0) == Joined(last, ' ') && NameIn(parts, 1) == Joined(first, ' ')
  {
    hide Joined, PlainWords, Fill, SplitFillers, Trim, Spaced, FindFillers;
    var l, tail := Joined(last, '<'), Joined(first, '<') + Fill(n);
    var rest := "<<" + tail;
    var s := l + rest;
    JoinedShape(last);
    FindAfter(l, rest);
    FirstPart(s);
    SecondPart(s);
    assert s[..|l|] == l + "";
    IdentifierTrimmed(last, "");
    assert s[|l| + 2..] == tail;
    IdentifierInverts(first, n);
  }

  lemma NoSecondName(last: seq<string>, n: nat)
    requires PlainWords(last)
    ensures NameIn(SplitFillers(Joined(last, '<') + Fill(n)), 1) == ""
  {
    hide Joined, PlainWords, SplitFillers, Trim, Spaced, Fill;
    var w := Joined(last, '<');
    JoinedShape(last);
    var s := w + Fill(n);
    FillShape(n);
    if n >= 2 {
      FindAfter(w, Fill(n));
      FillTail(n, 2);
      assert s[|w| + 2..] == Fill(n)[2..];
      SecondPart(s);
      FirstPart(Fill(n - 2));
      FillIsBlank(n - 2);
    } else {
      FindNone(s);
      WholePart(s);
    }
  }

  lemma FillIsBlank(n: nat)
    ensures NameIn(SplitFillers(Fill(n)), 0) == ""
  {
    assert Joined([], '<') + Fill(n) == Fill(n);
    FirstPart(Fill(n));
    IdentifierInverts([], n);
    assert Joined([], ' ') == "";
  }

  lemma NamesPrintable(last: seq<string>, first: seq<string>)
    requires PlainWords(last) && PlainWords(first)
    ensures Printable(Names(last, first))
  {
    JoinedShape(last);
    JoinedShape(first);
  }

  // ----- the round trips

  lemma Td3Printable(h: Holder, free: seq<string>, mark: char)
    requires Printed(h, 39) && Td3Free(free) && IsMark(mark)
    ensures Printable(Td3(h, free, mark)) && |Td3(h, free, mark)| == 88
  {
    PadPrintable(h.issuingCountry, 3);
    NamesPrintable(h.last, h.first);
    PadPrintable(Names(h.last, h.first), 39);
    LowerPrintable(h, free, mark);
    hide Names, Pad, Td3Lower;
  }

  lemma LowerPrintable(h: Holder, free: seq<string>, mark: char)
    requires Printed(h, 39) && Td3Free(free) && IsMark(mark)
    ensures Printable(Td3Lower(h, free, mark)) && |Td3Lower(h, free, mark)| == 44
  {
    PadWithPrintable(h.documentNumber, 9, mark);
    PadPrintable(h.nationality, 3);
    PadPrintable(h.dateOfBirth, 6);
    PadPrintable(h.gender, 1);
    PadWithPrintable(h.expiryDate, 6, mark);
    hide Pad;
  }

  lemma Whole(s: string)
    ensures At(s, 0, s)
  {
  }

  /** A field of a right-nested layout, and what follows it. */
  lemma Cut(s: string, p: nat, field: string, rest: string)
    requires At(s, p, field + rest)
    ensures p + |field| <= |s| && s[p..p + |field|] == field
    ensures At(s, p + |field|, rest)
  {
    AtConcat(s, p, field, rest);
    AtSlice(s, p, field);
  }

  lemma CutLast(s: string, p: nat, field: string)
    requires At(s, p, field)
    ensures p + |field| <= |s| && s[p..p + |field|] == field
  {
    AtSlice(s, p, field);
  }

  lemma Widths(h: Holder, nameWidth: nat, mark: char)
    requires Printed(h, nameWidth)
    ensures |Pad(h.issuingCountry, 3)| == 3 && |PadWith(h.documentNumber, 9, mark)| == 9
    ensures |Pad(h.nationality, 3)| == 3 && |Pad(h.dateOfBirth, 6)| == 6
    ensures |Pad(h.gender, 1)| == 1 && |PadWith(h.expiryDate, 6, mark)| == 6
    ensures |Pad(Names(h.last, h.first), nameWidth)| == nameWidth
  {
  }

  lemma Td3UpperCuts(s: string, h: Holder, free: seq<string>, mark: char)
    requires Printed(h, 39) && Td3Free(free) && IsMark(mark) && s == Td3(h, free, mark)
    ensures |s| >= 44 && s[0] == 'P'
    ensures s[2..5] == Pad(h.issuingCountry, 3) && s[5..44] == Pad(Names(h.last, h.first), 39)
    ensures At(s, 44, Td3Lower(h, free, mark))
  {
    Widths(h, 39, mark);
    Whole(s);
    hide At, Pad, PadWith, Names, Printed, Td3Lower, Printable;
    var country, names, lower := Pad(h.issuingCountry, 3), Pad(Names(h.last, h.first), 39), Td3Lower(h, free, mark);
    Cut(s, 0, "P", free[0] + (country + (names + lower)));
    Cut(s, 1, free[0], country + (names + lower));
    Cut(s, 2, country, names + lower);
    Cut(s, 5, names, lower);
    assert s[0..1][0] == 'P';
  }

  lemma Td3LowerCuts(s: string, h: Holder, free: seq<string>, mark: char)
    requires Printed(h, 39) && Td3Free(free) && IsMark(mark) && At(s, 44, Td3Lower(h, free, mark))
    ensures |s| >= 71
    ensures s[44..53] == PadWith(h.documentNumber, 9, mark) && s[54..57] == Pad(h.nationality, 3)
    ensures s[57..63] == Pad(h.dateOfBirth, 6) && s[64..65] == Pad(h.gender, 1) && s[65..71] == PadWith(h.expiryDate, 6, mark)
  {
    Widths(h, 39, mark);
    hide At, Pad, PadWith, Names, Printed, Printable;
    var number, nation, birth := PadWith(h.documentNumber, 9, mark), Pad(h.nationality, 3), Pad(h.dateOfBirth, 6);
    var gender, expiry, end := Pad(h.gender, 1), PadWith(h.expiryDate, 6, mark), free[3] + free[4];
    Cut(s, 44, number, free[1] + (nation + (birth + (free[2] + (gender + (expiry + end))))));
    Cut(s, 53, free[1], nation + (birth + (free[2] + (gender + (expiry + end)))));
    Cut(s, 54, nation, birth + (free[2] + (gender + (expiry + end))));
    Cut(s, 57, birth, free[2] + (gender + (expiry + end)));
    Cut(s, 63, free[2], gender + (expiry + end));
    Cut(s, 64, gender, expiry + end);
    Cut(s, 65, expiry, end);
  }

  /** Fields without their fillers are the holder's. */
  lemma HolderInverts(h: Holder, nameWidth: nat, mark: char)
    requires Printed(h, nameWidth) && IsMark(mark)
    ensures Without(Pad(h.issuingCountry, 3), FILLER) == h.issuingCountry
    ensures Without(PadWith(h.documentNumber, 9, mark), FILLERS) == h.documentNumber
    ensures Without(Pad(h.nationality, 3), FILLER) == h.nationality
    ensures Without(Pad(h.dateOfBirth, 6), FILLER) == h.dateOfBirth
    ensures Without(Pad(h.gender, 1), FILLER) == h.gender
    ensures Without(PadWith(h.expiryDate, 6, mark), FILLERS) == h.expiryDate
  {
    FieldInverts(h.issuingCountry, 3, FILLER);
    MarkedInverts(h.documentNumber, 9, mark);
    FieldInverts(h.nationality, 3, FILLER);
    FieldInverts(h.dateOfBirth, 6, FILLER);
    FieldInverts(h.gender, 1, FILLER);
    MarkedInverts(h.expiryDate, 6, mark);
  }

  lemma NamesFit(h: Holder, nameWidth: nat)
    requires Printed(h, nameWidth)
    ensures PlainWords(h.last) && PlainWords(h.first) && |Names(h.last, h.first)| <= nameWidth
  {
  }

  /** Passports: every field comes back, also from text with line breaks or spaces in it. */
  lemma Td3RoundTrip(mrz: string, h: Holder, free: seq<string>, mark: char)
    requires Printed(h, 39) && Td3Free(free) && IsMark(mark)
    requires Interleaved(mrz, Td3(h, free, mark), BREAKS)
    ensures ParseMrz(mrz) == FieldsOf(h)
  {
    hide Without, Pad, PadWith, Names, Joined, NameIn, SplitFillers, Printed, Td3, At, Printable, Clean, Interleaved;
    var s := Td3(h, free, mark);
    CleanIff(mrz, s);
    Td3Printable(h, free, mark);
    Td3UpperCuts(s, h, free, mark);
    Td3LowerCuts(s, h, free, mark);
    HolderInverts(h, 39, mark);
    NamesFit(h, 39);
    NamesInvert(h.last, h.first, 39);
  }

  /** In particular from the two lines as they are printed. */
  lemma Td3LinesRoundTrip(upper: string, lower: string, h: Holder, free: seq<string>, mark: char)
    requires Printed(h, 39) && Td3Free(free) && IsMark(mark)
    requires upper + lower == Td3(h, free, mark)
    ensures ParseMrz(upper + "\n" + lower) == FieldsOf(h)
  {
    hide *;
    Td3Printable(h, free, mark);
    assert upper + lower + "" == upper + lower;
    LinesBreak(upper, lower, "");
    Td3RoundTrip(upper + "\n" + lower, h, free, mark);
  }

  /** A text too short for its layout has no names, whatever else is read from it. */
  lemma ShortZoneHasNoNames(mrz: string, text: string)
    requires Interleaved(mrz, text, BREAKS) && |text| < 90 && (|text| < 88 || text[0] != 'P')
    ensures ParseMrz(mrz).lastName == "" && ParseMrz(mrz).firstName == ""
  {
    hide Without, Clean, Interleaved;
    CleanIff(mrz, text);
    assert SplitFillers("") == [""];
    assert Spaced("") == "";
  }

  lemma Td1UpperCuts(s: string, h: Holder, free: seq<string>, mark: char)
    requires Printed(h, 30) && Td1Free(free) && IsMark(mark) && s == Td1(h, free, mark)
    ensures |s| >= 30 && s[0] == free[0][0]
    ensures s[2..5] == Pad(h.issuingCountry, 3) && s[5..14] == PadWith(h.documentNumber, 9, mark)
    ensures At(s, 30, Td1Lower(h, free, mark))
  {
    Widths(h, 30, mark);
    Whole(s);
    hide At, Pad, PadWith, Names, Printed, Td1Lower, Printable;
    var country, number, lower := Pad(h.issuingCountry, 3), PadWith(h.documentNumber, 9, mark), Td1Lower(h, free, mark);
    Cut(s, 0, free[0], country + (number + (free[1] + lower)));
    Cut(s, 2, country, number + (free[1] + lower));
    Cut(s, 5, number, free[1] + lower);
    Cut(s, 14, free[1], lower);
    assert s[0..2][0] == free[0][0];
  }

  lemma Td1LowerCuts(s: string, h: Holder, free: seq<string>, mark: char)
    requires Printed(h, 30) && Td1Free(free) && IsMark(mark) && At(s, 30, Td1Lower(h, free, mark))
    ensures |s| >= 90
    ensures s[30..36] == Pad(h.dateOfBirth, 6) && s[37..38] == Pad(h.gender, 1) && s[38..44] == PadWith(h.expiryDate, 6, mark)
    ensures s[45..48] == Pad(h.nationality, 3) && s[60..90] == Pad(Names(h.last, h.first), 30)
  {
    Widths(h, 30, mark);
    hide At, Pad, PadWith, Names, Printed, Printable;
    var birth, gender, expiry := Pad(h.dateOfBirth, 6), Pad(h.gender, 1), PadWith(h.expiryDate, 6, mark);
    var nation, names := Pad(h.nationality, 3), Pad(Names(h.last, h.first), 30);
    Cut(s, 30, birth, free[2] + (gender + (expiry + (free[3] + (nation + (free[4] + names))))));
    Cut(s, 36, free[2], gender + (expiry + (free[3] + (nation + (free[4] + names)))));
    Cut(s, 37, gender, expiry + (free[3] + (nation + (free[4] + names))));
    Cut(s, 38, expiry, free[3] + (nation + (free[4] + names)));
    Cut(s, 44, free[3], nation + (free[4] + names));
    Cut(s, 45, nation, free[4] + names);
    Cut(s, 48, free[4], names);
    CutLast(s, 60, names);
  }

  /** Cards: the same, for the document codes of part 5, none of which starts with P. */
  lemma Td1RoundTrip(mrz: string, h: Holder, free: seq<string>, mark: char)
    requires Printed(h, 30) && Td1Free(free) && IsMark(mark) && free[0][0] != 'P'
    requires Interleaved(mrz, Td1(h, free, mark), BREAKS)
    ensures ParseMrz(mrz) == FieldsOf(h)
  {
    hide Without, Pad, PadWith, Names, Joined, NameIn, SplitFillers, Printed, Td1, At, Printable, Clean, Interleaved;
    var s := Td1(h, free, mark);
    CleanIff(mrz, s);
    Td1UpperCuts(s, h, free, mark);
    Td1LowerCuts(s, h, free, mark);
    HolderInverts(h, 30, mark);
    NamesFit(h, 30);
    NamesInvert(h.last, h.first, 30);
  }

  /** In particular from the three lines as they are printed. */
  lemma Td1LinesRoundTrip(upper: string, middle: string, lower: string, h: Holder, free: seq<string>, mark: char)
    requires Printed(h, 30) && Td1Free(free) && IsMark(mark) && free[0][0] != 'P'
    requires upper + middle + lower == Td1(h, free, mark)
    ensures ParseMrz(upper + "\n" + middle + "\n" + lower) == FieldsOf(h)
  {
    hide Printed, Printable, Interleaved, ParseMrz, FieldsOf, Td1;
    Td1Printable(h, free, mark);
    LinesBreak(upper, middle, lower);
    Td1RoundTrip(upper + "\n" + middle + "\n" + lower, h, free, mark);
  }

  /** As documents are printed: a date of birth of digits, and a surname that starts with a letter. */
  ghost predicate Dated(h: Holder) {
    && (forall i :: 0 <= i < |h.dateOfBirth| ==> '0' <= h.dateOfBirth[i] <= '9')
    && h.last != [] && h.last[0] != "" && 'A' <= h.last[0][0] <= 'Z'
  }

  lemma {:induction false} WithoutKeeps(s: string, drop: set<char>, i: nat)
    requires i < |s| && s[i] !in drop
    ensures s[i] in Without(s, drop)
  {
    if i > 0 {
      WithoutKeeps(s[1..], drop, i - 1);
    }
  }

  lemma NamesFirst(h: Holder)
    requires Printed(h, 30) && Dated(h)
    ensures Names(h.last, h.first) != "" && Pad(Names(h.last, h.first), 30)[0] == h.last[0][0]
    ensures h.last[0][0] != '<' && h.last[0][0] !in h.dateOfBirth
  {
    assert Joined(h.last, '<') != "" && Joined(h.last, '<')[0] == h.last[0][0];
  }

  /** On a passport, the fourth column of the date of birth. */
  lemma BirthKeeps(mrz: string, s: string)
    requires Interleaved(mrz, s, BREAKS) && |s| >= 88 && s[0] == 'P' && s[60] != '<'
    ensures s[60] in ParseMrz(mrz).dateOfBirth
  {
    hide Without, Clean, Interleaved, SplitFillers, NameIn;
    CleanIff(mrz, s);
    assert s[57..63][3] == s[60];
    WithoutKeeps(s[57..63], FILLER, 3);
  }

  /** A card with a code that begins with P is read as a passport, and part of the surname as a date. */
  lemma CardWithPIsMisread(mrz: string, h: Holder, free: seq<string>, mark: char)
    requires Printed(h, 30) && Dated(h) && Td1Free(free) && IsMark(mark) && free[0][0] == 'P'
    requires Interleaved(mrz, Td1(h, free, mark), BREAKS)
    ensures ParseMrz(mrz).dateOfBirth != h.dateOfBirth
  {
    var s := Td1(h, free, mark);
    Td1UpperCuts(s, h, free, mark);
    Td1LowerCuts(s, h, free, mark);
    NamesFirst(h);
    hide Td1, At, Printable, Printed, Dated, Names, Pad, PadWith, Td1Lower, Interleaved, ParseMrz;
    assert s[60..90][0] == s[60];
    BirthKeeps(mrz, s);
  }

  /** For such holders the card layout is read back if and only if its code does not begin with P. */
  lemma Td1RoundTripIff(mrz: string, h: Holder, free: seq<string>, mark: char)
    requires Printed(h, 30) && Dated(h) && Td1Free(free) && IsMark(mark)
    requires Interleaved(mrz, Td1(h, free, mark), BREAKS)
    ensures ParseMrz(mrz) == FieldsOf(h) <==> free[0][0] != 'P'
  {
    hide Printed, Dated, Interleaved, Td1, ParseMrz;
    if free[0][0] == 'P' {
      CardWithPIsMisread(mrz, h, free, mark);
    } else {
      Td1RoundTrip(mrz, h, free, mark);
    }
  }

  lemma Td1Printable(h: Holder, free: seq<string>, mark: char)
    requires Printed(h, 30) && Td1Free(free) && IsMark(mark)
    ensures Printable(Td1(h, free, mark)) && |Td1(h, free, mark)| == 90
  {
    PadPrintable(h.issuingCountry, 3);
    PadWithPrintable(h.documentNumber, 9, mark);
    Td1LowerPrintable(h, free, mark);
    hide Names, Pad, Td1Lower;
  }

  lemma Td1LowerPrintable(h: Holder, free: seq<string>, mark: char)
    requires Printed(h, 30) && Td1Free(free) && IsMark(mark)
    ensures Printable(Td1Lower(h, free, mark)) && |Td1Lower(h, free, mark)| == 60
  {
    PadPrintable(h.nationality, 3);
    PadPrintable(h.dateOfBirth, 6);
    PadPrintable(h.gender, 1);
    PadWithPrintable(h.expiryDate, 6, mark);
    NamesPrintable(h.last, h.first);
    PadPrintable(Names(h.last, h.first), 30);
    hide Names, Pad;
  }

  // ----- data group 1

  function Ascii(s: string): seq<byte> {
    seq(|s|, i requires 0 <= i < |s| => s[i] as int % 256)
  }

  /** DG1 (part 10): tag 0x61 around the MRZ data object 0x5f1f. */
  function EncodeDg1(mrz: string): seq<byte> {
    Der.Encode(0x61, [0x5f, 0x1f] + Der.EncodeLength(|mrz|) + Ascii(mrz))
  }

  /** The pieces of a data group: outer length, object tag, inner length, text. */
  lemma Dg1Layout(dg1: Buffer, mrz: string)
    requires At(dg1, 0, EncodeDg1(mrz))
    ensures var inner := Der.EncodeLength(|mrz|);
            var outer := Der.EncodeLength(2 + |inner| + |mrz|);
            var k := 1 + |outer|;
            && k + 2 + |inner| + |mrz| <= |dg1| && dg1[0] == 0x61 && At(dg1, 1, outer)
            && dg1[k] == 0x5f && dg1[k + 1] == 0x1f
            && At(dg1, k + 2, inner) && At(dg1, k + 2 + |inner|, Ascii(mrz))
  {
    hide Der.EncodeLength;
    var inner := Der.EncodeLength(|mrz|);
    var content := [0x5f, 0x1f] + inner + Ascii(mrz);
    var outer := Der.EncodeLength(|content|);
    AtConcat(dg1, 0, [0x61] + outer, content);
    AtConcat(dg1, 0, [0x61], outer);
    AtConcat(dg1, 1 + |outer|, [0x5f, 0x1f] + inner, Ascii(mrz));
    AtConcat(dg1, 1 + |outer|, [0x5f, 0x1f], inner);
    assert dg1[0] == [0x61][0];
    assert dg1[1 + |outer|] == [0x5f, 0x1f][0] && dg1[1 + |outer| + 1] == [0x5f, 0x1f][1];
  }

  /** The scan stops at the first tag, if the length byte after it fits. */
  lemma {:induction false} ScanFinds(dg1: Buffer, index: nat, k: nat)
    requires index <= k && k + 2 < |dg1| && forall i :: index <= i < k - 1 ==> dg1[i] != 0x5f
    requires dg1[k] == 0x5f && dg1[k + 1] == 0x1f && k + 3 + dg1[k + 2] <= |dg1|
    ensures FindMrz(dg1, index) == Some((k + 3, k + 3 + dg1[k + 2]))
    decreases k - index
  {
    if index < k {
      ScanFinds(dg1, index + 1, k);
    }
  }

  /** One length byte: never more than 255 bytes of text. */
  lemma {:induction false} FoundIsShort(dg1: Buffer, index: nat)
    ensures FindMrz(dg1, index).Some? ==>
              var (start, end) := FindMrz(dg1, index).value;
              start <= end <= |dg1| && end - start < 256
    decreases |dg1| - index
  {
    if index + 2 < |dg1| {
      FoundIsShort(dg1, index + 1);
    }
  }

  lemma ShortLengths(n: nat)
    ensures n < 0x80 ==> Der.EncodeLength(n) == [n]
    ensures 0x80 <= n < 0x100 ==> Der.EncodeLength(n) == [0x81, n]
    ensures 0x100 <= n < 0x10000 ==> Der.EncodeLength(n) == [0x82, n / 0x100, n % 0x100]
  {
    if 0x80 <= n < 0x10000 {
      assert BigEndian(0) == [];
      assert n < 0x100 ==> BigEndian(n) == [n];
      assert n >= 0x100 ==> BigEndian(n / 0x100) == [n / 0x100] && BigEndian(n) == [n / 0x100, n % 0x100];
    }
  }

  /** Up to 255 bytes the outer length holds no 0x5f before its last byte: the scan stops at the object's tag. */
  lemma OuterLengthIsPlain(dg1: Buffer, mrz: string)
    requires At(dg1, 0, EncodeDg1(mrz)) && |mrz| < 256
    ensures var k := 1 + |Der.EncodeLength(2 + |Der.EncodeLength(|mrz|)| + |mrz|)|;
            k + 2 < |dg1| && forall i :: 0 <= i < k - 1 ==> dg1[i] != 0x5f
  {
    hide Der.EncodeLength, EncodeDg1, At;
    var inner := Der.EncodeLength(|mrz|);
    var outer := Der.EncodeLength(2 + |inner| + |mrz|);
    Dg1Layout(dg1, mrz);
    PlainLength(|mrz|);
    PlainLength(2 + |inner| + |mrz|);
    if |outer| > 1 {
      AtElement(dg1, 1, outer, 0);
    }
    if |outer| > 2 {
      AtElement(dg1, 1, outer, 1);
    }
  }

  lemma PlainLength(n: nat)
    requires n < 261
    ensures var length := Der.EncodeLength(n);
            && 1 <= |length| <= 3 && (n < 256 ==> |length| <= 2)
            && (|length| > 1 ==> length[0] != 0x5f) && (|length| > 2 ==> length[1] != 0x5f)
  {
    ShortLengths(n);
    hide Der.EncodeLength;
  }

  lemma AtElement<T>(buf: seq<T>, p: nat, part: seq<T>, i: nat)
    requires At(buf, p, part) && i < |part|
    ensures p + i < |buf| && buf[p + i] == part[i]
  {
  }

  /** The scan finds the tag at `k`, and takes the bytes after the length byte. */
  lemma ExtractAt(dg1: Buffer, k: nat)
    requires k + 2 < |dg1| && forall i :: 0 <= i < k - 1 ==> dg1[i] != 0x5f
    requires dg1[k] == 0x5f && dg1[k + 1] == 0x1f && k + 3 + dg1[k + 2] <= |dg1|
    ensures ExtractMrz(dg1) == ToText(dg1[k + 3..k + 3 + dg1[k + 2]])
  {
    hide FindMrz, ToText;
    ScanFinds(dg1, 0, k);
  }

  lemma ShortZoneIsFound(dg1: Buffer, mrz: string)
    requires Printable(mrz) && |mrz| < 128
    requires At(dg1, 0, EncodeDg1(mrz))
    ensures ExtractMrz(dg1) == Ok(mrz)
  {
    hide Der.EncodeLength, EncodeDg1, Printable, At, ToText, ExtractMrz;
    Dg1Layout(dg1, mrz);
    OuterLengthIsPlain(dg1, mrz);
    ShortLengths(|mrz|);
    var inner := Der.EncodeLength(|mrz|);
    var k := 1 + |Der.EncodeLength(2 + |inner| + |mrz|)|;
    AtElement(dg1, k + 2, inner, 0);
    ExtractAt(dg1, k);
    AtSlice(dg1, k + 3, Ascii(mrz));
    AsciiInverts(mrz);
  }

  /** From 128 bytes on the length takes two bytes; the scan takes the second one for text. */
  lemma MiddlingZoneIsRejected(dg1: Buffer, mrz: string)
    requires 128 <= |mrz| < 256
    requires At(dg1, 0, EncodeDg1(mrz))
    ensures ExtractMrz(dg1) == Err
  {
    hide Der.EncodeLength, EncodeDg1, Ascii, At, ExtractMrz, ToText;
    Dg1Layout(dg1, mrz);
    OuterLengthIsPlain(dg1, mrz);
    ShortLengths(|mrz|);
    var inner := Der.EncodeLength(|mrz|);
    var k := 1 + |Der.EncodeLength(2 + |inner| + |mrz|)|;
    AtElement(dg1, k + 2, inner, 0);
    AtElement(dg1, k + 2, inner, 1);
    ExtractAt(dg1, k);
    NotText(dg1[k + 3..k + 3 + 0x81]);
  }

  lemma NotText(bytes: seq<byte>)
    requires bytes != [] && bytes[0] >= 128
    ensures ToText(bytes) == Err
  {
  }

  lemma TextKeepsLength(bytes: seq<byte>)
    ensures ToText(bytes).Ok? ==> |ToText(bytes).value| == |bytes|
  {
  }

  lemma LongZoneIsNotFound(dg1: Buffer, mrz: string)
    requires |mrz| >= 256 && At(dg1, 0, EncodeDg1(mrz))
    ensures ExtractMrz(dg1) != Ok(mrz)
  {
    Dg1Layout(dg1, mrz);
    hide Der.EncodeLength, EncodeDg1, At, ToText;
    FoundIsShort(dg1, 0);
    match FindMrz(dg1, 0)
    case None => TextKeepsLength(dg1);
    case Some((start, end)) => TextKeepsLength(dg1[start..end]);
  }

  /** A text wrapped as data group 1 is found again if and only if its length takes one byte. */
  lemma Dg1RoundTripIff(dg1: Buffer, mrz: string)
    requires Printable(mrz) && At(dg1, 0, EncodeDg1(mrz))
    ensures ExtractMrz(dg1) == Ok(mrz) <==> |mrz| < 128
  {
    hide Printable, At, EncodeDg1, ExtractMrz;
    if |mrz| < 128 {
      ShortZoneIsFound(dg1, mrz);
    } else if |mrz| < 256 {
      MiddlingZoneIsRejected(dg1, mrz);
    } else {
      LongZoneIsNotFound(dg1, mrz);
    }
  }

  lemma AsciiInverts(s: string)
    requires Printable(s)
    ensures ToText(Ascii(s)) == Ok(s)
  {
    var bytes := Ascii(s);
    assert forall i :: 0 <= i < |s| ==> bytes[i] < 128 && bytes[i] as char == s[i];
    assert seq(|bytes|, i requires 0 <= i < |bytes| => bytes[i] as char) == s;
  }

  /** From the chip's data group to the holder's fields, for both layouts. */
  lemma PassportRoundTrip(dg1: Buffer, h: Holder, free: seq<string>, mark: char)
    requires Printed(h, 39) && Td3Free(free) && IsMark(mark)
    requires At(dg1, 0, EncodeDg1(Td3(h, free, mark)))
    ensures ExtractMrz(dg1) == Ok(Td3(h, free, mark)) && ParseMrz(ExtractMrz(dg1).value) == FieldsOf(h)
  {
    hide Td3, At, EncodeDg1, Printed, ExtractMrz, ParseMrz, Interleaved, Printable;
    Td3Printable(h, free, mark);
    Dg1RoundTripIff(dg1, Td3(h, free, mark));
    Unbroken(Td3(h, free, mark));
    Td3RoundTrip(Td3(h, free, mark), h, free, mark);
  }

  lemma CardRoundTrip(dg1: Buffer, h: Holder, free: seq<string>, mark: char)
    requires Printed(h, 30) && Td1Free(free) && IsMark(mark)
    requires At(dg1, 0, EncodeDg1(Td1(h, free, mark)))
    ensures ExtractMrz(dg1) == Ok(Td1(h, free, mark))
    ensures free[0][0] != 'P' ==> ParseMrz(ExtractMrz(dg1).value) == FieldsOf(h)
    ensures Dated(h) && free[0][0] == 'P' ==> ParseMrz(ExtractMrz(dg1).value) != FieldsOf(h)
  {
    hide Td1, At, EncodeDg1, Printed, ExtractMrz, ParseMrz, Interleaved, Printable;
    Td1Printable(h, free, mark);
    Dg1RoundTripIff(dg1, Td1(h, free, mark));
    Unbroken(Td1(h, free, mark));
    if free[0][0] != 'P' {
      Td1RoundTrip(Td1(h, free, mark), h, free, mark);
    } else if Dated(h) {
      Td1RoundTripIff(Td1(h, free, mark), h, free, mark);
    }
  }
}
