/** The order of strings by code points, which is the byte order of their UTF-8 encodings. */
module Lexicographic {

  predicate Below(a: string, b: string) {
    b != "" && (a == "" || a[0] < b[0] || (a[0] == b[0] && Below(a[1..], b[1..])))
  }

  /** The smaller text ends first, or has the smaller character where the two first differ. */
  lemma {:induction false} BelowIff(a: string, b: string)
    ensures Below(a, b)
       <==> exists k :: 0 <= k <= |a| && k < |b| && a[..k] == b[..k] && (k == |a| || a[k] < b[k])
  {
    if a == "" {
      assert b != "" ==> a[..0] == b[..0];
    } else if b != "" {
      BelowIff(a[1..], b[1..]);
      if Below(a, b) {
        if a[0] < b[0] {
          assert a[..0] == b[..0];
        } else {
          var k :| 0 <= k <= |a[1..]| && k < |b[1..]| && a[1..][..k] == b[1..][..k] && (k == |a[1..]| || a[1..][k] < b[1..][k]);
          FirstPart(a, k);
          FirstPart(b, k);
          assert a[..k + 1] == b[..k + 1];
        }
      }
      if k :| 0 <= k <= |a| && k < |b| && a[..k] == b[..k] && (k == |a| || a[k] < b[k]) {
        if k > 0 {
          FirstPart(a, k - 1);
          FirstPart(b, k - 1);
          assert a[..k][0] == b[..k][0];
          assert a[1..][..k - 1] == a[..k][1..] && b[1..][..k - 1] == b[..k][1..];
          assert Below(a[1..], b[1..]);
        }
      }
    }
  }

  lemma FirstPart(s: string, k: nat)
    requires k < |s|
    ensures s[..k + 1] == [s[0]] + s[1..][..k]
  {
  }

  lemma {:induction false} BelowIsStrict(a: string, b: string)
    requires Below(a, b)
    ensures !Below(b, a) && a != b
  {
    if a != "" && a[0] == b[0] {
      BelowIsStrict(a[1..], b[1..]);
    }
  }

  lemma {:induction false} BelowIsTotal(a: string, b: string)
    ensures Below(a, b) || a == b || Below(b, a)
  {
    if a != "" && b != "" && a[0] == b[0] {
      BelowIsTotal(a[1..], b[1..]);
      assert a == [a[0]] + a[1..] && b == [b[0]] + b[1..];
    }
  }

  lemma {:induction false} BelowIsTransitive(a: string, b: string, c: string)
    requires Below(a, b) && Below(b, c)
    ensures Below(a, c)
  {
    if a != "" && a[0] == b[0] == c[0] {
      BelowIsTransitive(a[1..], b[1..], c[1..]);
    }
  }

  predicate Ascending(names: seq<string>) {
    forall i, j :: 0 <= i < j < |names| ==> Below(names[i], names[j])
  }

  ghost predicate SameElements(a: seq<string>, b: seq<string>) {
    forall s :: s in a <==> s in b
  }

  /** An ascending list is determined by its elements. */
  lemma {:induction false} AscendingUnique(a: seq<string>, b: seq<string>)
    requires Ascending(a) && Ascending(b)
    requires SameElements(a, b)
    ensures a == b
  {
    FirstIsElement(a);
    FirstIsElement(b);
    if a != [] && b != [] {
      SameFirst(a, b);
      forall s
        ensures s in a[1..] <==> s in b[1..]
      {
        RestWithoutFirst(a, s);
        RestWithoutFirst(b, s);
      }
      AscendingUnique(a[1..], b[1..]);
      assert a == [a[0]] + a[1..] && b == [b[0]] + b[1..];
    }
  }

  lemma FirstIsElement(a: seq<string>)
    ensures a != [] ==> a[0] in a
  {
  }

  lemma SameFirst(a: seq<string>, b: seq<string>)
    requires Ascending(a) && Ascending(b)
    requires a != [] && b != [] && a[0] in b && b[0] in a
    ensures a[0] == b[0]
  {
    var i :| 0 <= i < |b| && b[i] == a[0];
    var j :| 0 <= j < |a| && a[j] == b[0];
    if i > 0 && j > 0 {
      BelowIsStrict(b[0], b[i]);
    }
  }

  lemma RestWithoutFirst(a: seq<string>, s: string)
    requires Ascending(a) && a != []
    ensures s in a[1..] <==> s in a && s != a[0]
  {
    assert a == [a[0]] + a[1..];
    if s in a[1..] {
      var i :| 0 <= i < |a[1..]| && a[1..][i] == s;
      BelowIsStrict(a[0], a[i + 1]);
    }
  }
}
