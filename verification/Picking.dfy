/** Selecting from a list by a list of flags. */
module Picking {

  function Pick<T>(items: seq<T>, flags: seq<bool>): (picked: seq<T>)
    requires |items| == |flags|
    ensures |picked| <= |items|
  {
    if items == [] then []
    else
      var k := |items| - 1;
      var picked := Pick(items[..k], flags[..k]);
      if flags[k] then picked + [items[k]] else picked
  }

  lemma {:induction false} PickNext<T>(items: seq<T>, flags: seq<bool>, k: nat)
    requires |items| == |flags| && k < |items|
    ensures Pick(items[..k + 1], flags[..k + 1])
         == if flags[k] then Pick(items[..k], flags[..k]) + [items[k]] else Pick(items[..k], flags[..k])
  {
    assert items[..k + 1][..k] == items[..k];
    assert flags[..k + 1][..k] == flags[..k];
  }

  predicate Distinct<T(==)>(items: seq<T>) {
    forall i, j :: 0 <= i < j < |items| ==> items[i] != items[j]
  }

  lemma {:induction false} PickedIff<T>(items: seq<T>, flags: seq<bool>, i: nat)
    requires |items| == |flags| && i < |items| && Distinct(items)
    ensures items[i] in Pick(items, flags) <==> flags[i]
  {
    var k := |items| - 1;
    var init := items[..k];
    if i < k {
      PickedIff(init, flags[..k], i);
      assert init[i] == items[i] != items[k];
    } else {
      PickedAreItems(init, flags[..k]);
      LastIsNew(items);
    }
  }

  lemma LastIsNew<T>(items: seq<T>)
    requires Distinct(items) && items != []
    ensures items[|items| - 1] !in items[..|items| - 1]
  {
  }

  lemma {:induction false} PickedAreItems<T>(items: seq<T>, flags: seq<bool>)
    requires |items| == |flags|
    ensures forall x :: x in Pick(items, flags) ==> x in items
  {
    if items != [] {
      var k := |items| - 1;
      PickedAreItems(items[..k], flags[..k]);
      assert items == items[..k] + [items[k]];
    }
  }

  lemma {:induction false} PickIsDistinct<T>(items: seq<T>, flags: seq<bool>)
    requires |items| == |flags| && Distinct(items)
    ensures Distinct(Pick(items, flags))
  {
    if items != [] {
      var k := |items| - 1;
      var picked := Pick(items[..k], flags[..k]);
      PickIsDistinct(items[..k], flags[..k]);
      PickedAreItems(items[..k], flags[..k]);
      forall i | 0 <= i < |picked|
        ensures picked[i] != items[k]
      {
        assert picked[i] in picked;
        var j :| 0 <= j < k && items[..k][j] == picked[i];
        assert items[j] == picked[i];
      }
    }
  }

  /** From distinct items, the picked list tells which ones were wanted. */
  lemma {:induction false} PickIsInjective<T>(items: seq<T>, a: seq<bool>, b: seq<bool>)
    requires |items| == |a| == |b| && Distinct(items)
    ensures Pick(items, a) == Pick(items, b) <==> a == b
  {
    if Pick(items, a) == Pick(items, b) {
      forall i | 0 <= i < |items|
        ensures a[i] == b[i]
      {
        PickedIff(items, a, i);
        PickedIff(items, b, i);
      }
    }
  }

  lemma {:induction false} PickNothingIff<T>(items: seq<T>, flags: seq<bool>)
    requires |items| == |flags| && Distinct(items)
    ensures Pick(items, flags) == [] <==> forall i :: 0 <= i < |flags| ==> !flags[i]
  {
    var none := seq(|flags|, _ => false);
    PickIsInjective(items, flags, none);
    PickNone(items, none);
  }

  lemma {:induction false} PickNone<T>(items: seq<T>, flags: seq<bool>)
    requires |items| == |flags| && forall i :: 0 <= i < |flags| ==> !flags[i]
    ensures Pick(items, flags) == []
  {
    if items != [] {
      PickNone(items[..|items| - 1], flags[..|items| - 1]);
    }
  }

  /** One item, if it is wanted: what one conditional push adds. */
  function Only<T>(items: seq<T>, flags: seq<bool>, k: nat): seq<T>
    requires |items| == |flags| && k < |items|
  {
    if flags[k] then [items[k]] else []
  }

  function Pushed<T>(items: seq<T>, flags: seq<bool>, k: nat): seq<T>
    requires |items| == |flags| && k <= |items|
  {
    if k == 0 then [] else Pushed(items, flags, k - 1) + Only(items, flags, k - 1)
  }

  lemma {:induction false} PushesPick<T>(items: seq<T>, flags: seq<bool>)
    requires |items| == |flags|
    ensures Pick(items, flags) == Pushed(items, flags, |items|)
  {
    for k := 0 to |items|
      invariant Pick(items[..k], flags[..k]) == Pushed(items, flags, k)
    {
      PickNext(items, flags, k);
    }
    assert items[..|items|] == items && flags[..|items|] == flags;
  }
}
