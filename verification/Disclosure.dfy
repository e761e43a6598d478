/**
 * Which fields a query discloses, and whether they cover what a petition requires: the Go helpers
 * of `server.go` and `mongodb.go`.
 */
module Disclosure {
  import opened Json
  import opened Wrappers

  type Query = map<string, Json>

  function AsNat(b: bool): nat {
    if b then 1 else 0
  }

  /** How often a field is listed: once for `disclose`, once more for `eq`. */
  function Listings(query: Query, field: string): nat {
    if field in query && query[field].Object? then
      var cfg := query[field].fields;
      AsNat("disclose" in cfg && cfg["disclose"] == Bool(true)) + AsNat("eq" in cfg)
    else 0
  }

  /** A list of disclosed fields, in any order: Go iterates over maps in a random one. */
  ghost predicate IsFieldList(query: Query, fields: seq<string>) {
    forall f :: multiset(fields)[f] == Listings(query, f)
  }

  method CollectDisclosedFields(query: Query) returns (fields: seq<string>)
    ensures IsFieldList(query, fields)
  {
    fields := [];
    var keys := query.Keys;
    while keys != {}
      invariant keys <= query.Keys
      invariant forall f :: multiset(fields)[f] == if f in keys then 0 else Listings(query, f)
      decreases keys
    {
      var key :| key in keys;
      var before := fields;
      var value := query[key];
      if value.Get("disclose") == Some(Bool(true)) {
        fields := fields + [key];
      }
      if value.Get("eq").Some? {
        fields := fields + [key];
      }
      keys := keys - {key};
    }
  }

  /** The required fields that were not provided, in the petition's order. */
  function MissingFields(provided: seq<string>, required: seq<string>): (missing: seq<string>)
    ensures missing == [] <==> forall f :: f in required ==> f in provided
    ensures forall f :: f in missing <==> f in required && f !in provided
  {
    if required == [] then []
    else
      var rest := MissingFields(provided, required[1..]);
      assert forall f :: f in required <==> f == required[0] || f in required[1..];
      if required[0] in provided then rest
      else
        var missing := [required[0]] + rest;
        assert missing[0] in missing;
        missing
  }

  method ValidateDisclosedFields(provided: seq<string>, required: seq<string>) returns (missing: seq<string>)
    ensures missing == MissingFields(provided, required)
  {
    var providedSet: set<string> := {};
    for i := 0 to |provided|
      invariant forall f :: f in providedSet <==> f in provided[..i]
    {
      providedSet := providedSet + {provided[i]};
    }
    assert provided[..|provided|] == provided;
    missing := [];
    for i := 0 to |required|
      invariant missing + MissingFields(provided, required[i..]) == MissingFields(provided, required)
    {
      assert required[i..][1..] == required[i + 1..];
      if required[i] !in providedSet {
        missing := missing + [required[i]];
      }
    }
  }

  /** Whichever order the two maps were iterated in, the verdict depends on the queries alone. */
  lemma VerdictIgnoresOrder(asked: Query, given: Query, required: seq<string>, provided: seq<string>)
    requires IsFieldList(asked, required) && IsFieldList(given, provided)
    ensures MissingFields(provided, required) == []
       <==> forall f :: Listings(asked, f) > 0 ==> Listings(given, f) > 0
  {
    forall f
      ensures f in required <==> Listings(asked, f) > 0
      ensures f in provided <==> Listings(given, f) > 0
    {
      assert f in required <==> multiset(required)[f] > 0;
      assert f in provided <==> multiset(provided)[f] > 0;
    }
  }

  const ZERO_FIELD := "0x0000000000000000000000000000000000000000000000000000000000000000"

  /** One of the four spellings of zero that the server recognises, or nothing. */
  predicate IsZeroField(s: string) {
    s == "" || s == "0" || s == "0x0" || s == ZERO_FIELD
  }

  /** A proof's public inputs carry a nullifier. */
  predicate HasNullifier(publicInputs: seq<string>) {
    |publicInputs| > 6 && !IsZeroField(publicInputs[6])
  }

  /** The seventh public input of the first proof that has a non-zero one; empty if none has. */
  ghost predicate IsFirstNullifier(proofs: seq<seq<string>>, nullifier: string) {
    if nullifier == "" then forall i :: 0 <= i < |proofs| ==> !HasNullifier(proofs[i])
    else
      exists i :: (
        && 0 <= i < |proofs| && HasNullifier(proofs[i]) && nullifier == proofs[i][6]
        && forall j :: 0 <= j < i ==> !HasNullifier(proofs[j]))
  }

  /** `extractNullifierFromDisclosures`: the first proof that has one decides. */
  method ExtractNullifier(proofs: seq<seq<string>>) returns (nullifier: string)
    ensures IsFirstNullifier(proofs, nullifier)
    ensures nullifier != "0" && nullifier != "0x0" && nullifier != ZERO_FIELD
    ensures forall i :: 0 <= i < |proofs| && |proofs[i]| > 6 && nullifier == "" ==>
              proofs[i][6] == "" || proofs[i][6] == "0" || proofs[i][6] == "0x0" || proofs[i][6] == ZERO_FIELD
  {
    for i := 0 to |proofs|
      invariant forall j :: 0 <= j < i ==> !HasNullifier(proofs[j])
    {
      if |proofs[i]| > 6 {
        var candidate := proofs[i][6];
        if candidate != "" && candidate != "0" && candidate != "0x0" && candidate != ZERO_FIELD {
          assert HasNullifier(proofs[i]);
          return candidate;
        }
      }
    }
    return "";
  }
}
