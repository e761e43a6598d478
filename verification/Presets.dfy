/** `presets.go`: the preset for a country, found by iterating over a map in no particular order. */
module Presets {
  import opened Wrappers
  import opened Lexicographic

  datatype CountryPreset = CountryPreset(id: string, countries: seq<string>)

  const GENERIC := "generic"

  predicate Lists(preset: CountryPreset, countryCode: string) {
    countryCode in preset.countries
  }

  /** Fewer countries, or as many and the smaller ID. */
  predicate Precedes(a: CountryPreset, b: CountryPreset) {
    |a.countries| < |b.countries| || (|a.countries| == |b.countries| && Below(a.id, b.id))
  }

  /** No preset of the set that lists the country comes before `best`, which is one of them. */
  ghost predicate IsBest(presets: map<string, CountryPreset>, keys: set<string>, countryCode: string, best: Option<CountryPreset>)
    requires keys <= presets.Keys
  {
    match best
    case None => forall key :: key in keys ==> !Lists(presets[key], countryCode)
    case Some(b) =>
      && (exists key :: key in keys && presets[key] == b && Lists(b, countryCode))
      && forall key :: key in keys && Lists(presets[key], countryCode) ==> !Precedes(presets[key], b)
  }

  /** The best match, or else the generic preset. */
  ghost predicate IsAnswer(presets: map<string, CountryPreset>, countryCode: string, r: Option<CountryPreset>) {
    if exists key :: key in presets && Lists(presets[key], countryCode) then
      r.Some? && IsBest(presets, presets.Keys, countryCode, r)
    else r == if GENERIC in presets then Some(presets[GENERIC]) else None
  }

  /** Go visits the keys in any order; so does this loop. */
  method GetPresetByCountry(presets: map<string, CountryPreset>, countryCode: string) returns (r: Option<CountryPreset>)
    ensures IsAnswer(presets, countryCode, r)
  {
    var best: Option<CountryPreset> := None;
    var keys := presets.Keys;
    ghost var visited: set<string> := {};
    while keys != {}
      invariant keys <= presets.Keys && visited == presets.Keys - keys
      invariant IsBest(presets, visited, countryCode, best)
      decreases keys
    {
      var key :| key in keys;
      var preset := presets[key];
      ghost var before := best;
      var found := false;
      for i := 0 to |preset.countries|
        invariant !found && best == before
        invariant countryCode !in preset.countries[..i]
      {
        if preset.countries[i] != countryCode {
          continue;
        }
        if best == None || |preset.countries| < |best.value.countries|
           || (|preset.countries| == |best.value.countries| && Below(preset.id, best.value.id)) {
          best := Some(preset);
        }
        found := true;
        break;
      }
      assert !found ==> preset.countries[..|preset.countries|] == preset.countries;
      VisitOne(presets, visited, key, countryCode, before, best);
      keys := keys - {key};
      visited := visited + {key};
    }
    assert visited == presets.Keys;
    if best != None {
      return best;
    }
    return if GENERIC in presets then Some(presets[GENERIC]) else None;
  }

  lemma PrecedesIsTransitive(a: CountryPreset, b: CountryPreset, c: CountryPreset)
    requires Precedes(a, b) && Precedes(b, c)
    ensures Precedes(a, c)
  {
    if |a.countries| == |b.countries| == |c.countries| {
      BelowIsTransitive(a.id, b.id, c.id);
    }
  }

  lemma PrecedesIsStrict(a: CountryPreset, b: CountryPreset)
    requires Precedes(a, b)
    ensures !Precedes(b, a)
  {
    if |a.countries| == |b.countries| {
      BelowIsStrict(a.id, b.id);
    }
  }

  /** One round of the loop: the new preset takes over if it lists the country and comes first. */
  lemma VisitOne(presets: map<string, CountryPreset>, visited: set<string>, key: string, countryCode: string,
                 before: Option<CountryPreset>, after: Option<CountryPreset>)
    requires visited <= presets.Keys && key in presets && IsBest(presets, visited, countryCode, before)
    requires after == if Lists(presets[key], countryCode) && (before == None || Precedes(presets[key], before.value))
                      then Some(presets[key]) else before
    ensures IsBest(presets, visited + {key}, countryCode, after)
  {
    var preset := presets[key];
    if Lists(preset, countryCode) {
      assert key in visited + {key};
      if after == Some(preset) {
        forall other | other in visited && Lists(presets[other], countryCode)
          ensures !Precedes(presets[other], preset)
        {
          if Precedes(presets[other], preset) {
            PrecedesIsTransitive(presets[other], preset, before.value);
          }
        }
        if Precedes(preset, preset) {
          PrecedesIsStrict(preset, preset);
        }
      }
    }
  }

  /** No preset that lists the country has fewer countries, or as many and a smaller ID. */
  lemma AnswerIsLeast(presets: map<string, CountryPreset>, countryCode: string, r: Option<CountryPreset>, key: string)
    requires IsAnswer(presets, countryCode, r)
    requires key in presets && countryCode in presets[key].countries
    ensures r.Some? && countryCode in r.value.countries && r.value in presets.Values
    ensures |r.value.countries| <= |presets[key].countries|
    ensures |r.value.countries| == |presets[key].countries| ==> r.value.id == presets[key].id || Below(r.value.id, presets[key].id)
  {
    assert Lists(presets[key], countryCode);
    BelowIsTotal(r.value.id, presets[key].id);
  }

  predicate DistinctIds(presets: map<string, CountryPreset>) {
    forall a, b :: a in presets && b in presets && a != b ==> presets[a].id != presets[b].id
  }

  /** With distinct IDs there is one answer: it does not depend on the order of the iteration. */
  lemma AnswerIsUnique(presets: map<string, CountryPreset>, countryCode: string,
                       a: Option<CountryPreset>, b: Option<CountryPreset>)
    requires DistinctIds(presets)
    requires IsAnswer(presets, countryCode, a) && IsAnswer(presets, countryCode, b)
    ensures a == b
  {
    if exists key :: key in presets && Lists(presets[key], countryCode) {
      BelowIsTotal(a.value.id, b.value.id);
    }
  }
}
