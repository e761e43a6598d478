/** The HTTP status of each ending, and the text that decides what a lost race is answered with. */
module Answers {
  import opened Protocol

  predicate OccursAt(s: string, word: string, k: nat) {
    k + |word| <= |s| && s[k..k + |word|] == word
  }

  predicate Contains(s: string, word: string) {
    exists k :: 0 <= k <= |s| && OccursAt(s, word, k)
  }

  /** The error text of `SaveSignature` for a refused insert. */
  function AlreadyExistsText(nullifier: string, petitionId: string): string {
    "signature with nullifier" + (" " + (nullifier + (" " + ("already exists for petition" + (" " + petitionId)))))
  }

  const DUPLICATE := "duplicate"

  /** The status that an ending is answered with. */
  function Status(ending: Ending, petitionId: string): nat {
    match ending
    case FieldsRejected => 400
    case DuplicateRejected => 409
    case Refused => 400
    case NotProved => 400
    case NothingToSave => 200
    case LostRace(nullifier) => if Contains(AlreadyExistsText(nullifier, petitionId), DUPLICATE) then 409 else 200
    case SaveFailed => 200
    case Kept(_, _, _) => 200
  }

  /** Occurrences inside a part of a text are the part's own. */
  lemma OccursInPart(s: string, part: string, at: nat, word: string, k: nat)
    requires at + |part| <= |s| && s[at..at + |part|] == part
    requires at <= k && k + |word| <= at + |part|
    ensures OccursAt(s, word, k) <==> OccursAt(part, word, k - at)
  {
    var inner := s[at..at + |part|];
    var x, y := inner[k - at..k - at + |word|], s[k..k + |word|];
    forall j | 0 <= j < |x|
      ensures x[j] == y[j]
    {
      assert inner[k - at + j] == s[k + j];
    }
    assert x == y;
  }

  lemma SpaceSeparates(s: string, word: string, k: nat, p: nat)
    requires OccursAt(s, word, k) && ' ' !in word && p < |s| && s[p] == ' '
    ensures p < k || k + |word| <= p
  {
    assert forall j :: 0 <= j < |word| ==> word[j] == s[k + j];
  }

  lemma PartContains(s: string, part: string, at: nat, word: string)
    requires at + |part| <= |s| && s[at..at + |part|] == part && Contains(part, word)
    ensures Contains(s, word)
  {
    hide OccursAt;
    var k: nat :| k <= |part| && OccursAt(part, word, k);
    Fits(part, word, k);
    OccursInPart(s, part, at, word, at + k);
  }

  lemma Fits(s: string, word: string, k: nat)
    requires OccursAt(s, word, k)
    ensures k + |word| <= |s|
  {
  }

  /** A word without spaces occurs in spaced text only within one of its two parts. */
  lemma ContainsSpaced(a: string, b: string, word: string)
    requires ' ' !in word
    ensures Contains(a + (" " + b), word) <==> Contains(a, word) || Contains(b, word)
  {
    var s := a + (" " + b);
    assert s[0..|a|] == a && s[|a| + 1..|a| + 1 + |b|] == b;
    if Contains(s, word) {
      var k: nat :| k <= |s| && OccursAt(s, word, k);
      Fits(s, word, k);
      SpaceSeparates(s, word, k, |a|);
      hide OccursAt;
      if k + |word| <= |a| {
        OccursInPart(s, a, 0, word, k);
      } else {
        OccursInPart(s, b, |a| + 1, word, k);
      }
    }
    hide OccursAt;
    if Contains(a, word) {
      PartContains(s, a, 0, word);
    }
    if Contains(b, word) {
      PartContains(s, b, |a| + 1, word);
    }
  }

  lemma LacksLetter(s: string, word: string, j: nat)
    requires j < |word| && word[j] !in s
    ensures !Contains(s, word)
  {
    forall k: nat
      ensures !OccursAt(s, word, k)
    {
      if k + |word| <= |s| {
        assert s[k..k + |word|][j] == s[k + j];
      }
    }
  }

  /**
   * The handler looks for "duplicate" in a text that says "already exists": a lost race is answered
   * with a conflict exactly when an identifier happens to contain that word.
   */
  lemma LostRaceIsConflictIff(nullifier: string, petitionId: string)
    ensures Status(LostRace(nullifier), petitionId) == 409
       <==> Contains(nullifier, DUPLICATE) || Contains(petitionId, DUPLICATE)
  {
    hide Contains, AlreadyExistsText;
    ConflictText(nullifier, petitionId);
  }

  /** The same for the text itself. */
  lemma ConflictText(nullifier: string, petitionId: string)
    ensures Contains(AlreadyExistsText(nullifier, petitionId), "duplicate")
       <==> Contains(nullifier, "duplicate") || Contains(petitionId, "duplicate")
  {
    hide Contains;
    FixedParts();
    FourParts("signature with nullifier", nullifier, "already exists for petition", petitionId, DUPLICATE);
  }

  lemma FourParts(a: string, b: string, c: string, d: string, word: string)
    requires ' ' !in word
    ensures Contains(a + (" " + (b + (" " + (c + (" " + d))))), word)
       <==> Contains(a, word) || Contains(b, word) || Contains(c, word) || Contains(d, word)
  {
    hide Contains;
    ContainsSpaced(a, b + (" " + (c + (" " + d))), word);
    ContainsSpaced(b, c + (" " + d), word);
    ContainsSpaced(c, d, word);
  }

  lemma FixedParts()
    ensures ' ' !in DUPLICATE
    ensures !Contains("signature with nullifier", DUPLICATE) && !Contains("already exists for petition", DUPLICATE)
  {
    hide Contains;
    LacksLetter("signature with nullifier", DUPLICATE, 0);
    LacksLetter("already exists for petition", DUPLICATE, 1);
  }
}
