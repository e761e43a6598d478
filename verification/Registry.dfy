/**
 * The circuit registry (`registry.rs`): fetching, taking a snapshot, and copying a snapshot into a
 * directory.  A response that cannot be fetched or decoded is an absent entry.
 */
module Registry {
  import opened Wrappers
  import opened Lexicographic

  datatype ManifestCircuit = ManifestCircuit(hash: string, size: nat)

  datatype Manifest = Manifest(version: string, root: string, circuits: map<string, ManifestCircuit>)

  /** `rest` stands for the members that no operation looks at. */
  datatype PackagedCircuit = PackagedCircuit(
    noirVersion: Option<string>, bbVersion: Option<string>, vkeyHash: string, rest: string)

  datatype CircuitFingerprint = CircuitFingerprint(
    name: string, manifestHash: string, manifestSize: nat,
    noirVersion: Option<string>, bbVersion: Option<string>, vkeyHash: string)

  datatype RegistrySnapshot = RegistrySnapshot(
    manifestVersion: string, manifestRoot: string, circuits: seq<CircuitFingerprint>)

  datatype RegistryClient = RegistryClient(manifests: map<string, Manifest>, artifacts: map<string, PackagedCircuit>) {

    function FetchManifest(version: string): Result<Manifest> {
      if version in manifests then Ok(manifests[version]) else Err
    }

    function FetchPackagedCircuit(manifest: Manifest, name: string): Result<PackagedCircuit> {
      if name in manifest.circuits && manifest.circuits[name].hash in artifacts then
        Ok(artifacts[manifest.circuits[name].hash])
      else Err
    }

    function Fingerprint(manifest: Manifest, name: string): Result<CircuitFingerprint> {
      var artifact :- FetchPackagedCircuit(manifest, name);
      var node := manifest.circuits[name];
      Ok(CircuitFingerprint(name, node.hash, node.size, artifact.noirVersion, artifact.bbVersion, artifact.vkeyHash))
    }

    function Fingerprints(manifest: Manifest, names: seq<string>): Result<seq<CircuitFingerprint>> {
      if names == [] then Ok([])
      else
        var first :- Fingerprint(manifest, names[0]);
        Join([first], Fingerprints(manifest, names[1..]))
    }

    function Snapshot(version: string, names: seq<string>): Result<RegistrySnapshot> {
      var manifest :- FetchManifest(version);
      var circuits :- Fingerprints(manifest, Dedup(Sort(names)));
      Ok(RegistrySnapshot(manifest.version, manifest.root, circuits))
    }
  }

  function Join<T>(first: seq<T>, others: Result<seq<T>>): Result<seq<T>> {
    var list :- others;
    Ok(first + list)
  }

  lemma JoinNothing<T>(others: Result<seq<T>>)
    ensures Join([], others) == others
  {
    if others.Ok? {
      assert [] + others.value == others.value;
    }
  }

  lemma JoinTwice<T>(a: seq<T>, b: seq<T>, others: Result<seq<T>>)
    ensures Join(a, Join(b, others)) == Join(a + b, others)
  {
    if others.Ok? {
      assert a + (b + others.value) == a + b + others.value;
    }
  }

  // ----- sorting and removing duplicates

  function Insert(name: string, sorted: seq<string>): seq<string> {
    if sorted == [] || !Below(sorted[0], name) then [name] + sorted
    else [sorted[0]] + Insert(name, sorted[1..])
  }

  function Sort(names: seq<string>): seq<string> {
    if names == [] then [] else Insert(names[|names| - 1], Sort(names[..|names| - 1]))
  }

  /** Keeps the first of each run of equal names. */
  function Dedup(names: seq<string>): seq<string> {
    if |names| <= 1 then names
    else if names[|names| - 2] == names[|names| - 1] then Dedup(names[..|names| - 1])
    else Dedup(names[..|names| - 1]) + [names[|names| - 1]]
  }

  predicate Sorted(names: seq<string>) {
    forall i, j :: 0 <= i < j < |names| ==> !Below(names[j], names[i])
  }

  lemma {:induction false} InsertKeepsNames(name: string, sorted: seq<string>)
    ensures multiset(Insert(name, sorted)) == multiset([name] + sorted)
  {
    if sorted != [] && Below(sorted[0], name) {
      InsertKeepsNames(name, sorted[1..]);
      assert sorted == [sorted[0]] + sorted[1..];
    }
  }

  lemma {:induction false} InsertSorts(name: string, sorted: seq<string>)
    requires Sorted(sorted)
    ensures Sorted(Insert(name, sorted))
  {
    if sorted != [] {
      if Below(sorted[0], name) {
        InsertSorts(name, sorted[1..]);
        InsertIsAbove(name, sorted);
      } else {
        forall j | 0 <= j < |sorted|
          ensures !Below(sorted[j], name)
        {
          FirstIsLeast(sorted, j, name);
        }
      }
    }
  }

  lemma InsertIsAbove(name: string, sorted: seq<string>)
    requires Sorted(sorted) && sorted != [] && Below(sorted[0], name)
    ensures forall j :: 0 <= j < |Insert(name, sorted[1..])| ==> !Below(Insert(name, sorted[1..])[j], sorted[0])
  {
    hide Insert;
    var rest := Insert(name, sorted[1..]);
    InsertKeepsNames(name, sorted[1..]);
    BelowIsStrict(sorted[0], name);
    forall j | 0 <= j < |rest|
      ensures !Below(rest[j], sorted[0])
    {
      assert rest[j] in multiset(rest);
      assert rest[j] == name || rest[j] in sorted[1..];
    }
  }

  lemma FirstIsLeast(sorted: seq<string>, j: nat, name: string)
    requires Sorted(sorted) && j < |sorted| && !Below(sorted[0], name)
    ensures !Below(sorted[j], name)
  {
    if j > 0 && Below(sorted[j], name) {
      BelowIsTotal(sorted[0], sorted[j]);
      if Below(sorted[0], sorted[j]) {
        BelowIsTransitive(sorted[0], sorted[j], name);
      }
    }
  }

  lemma {:induction false} SortSorts(names: seq<string>)
    ensures Sorted(Sort(names))
    ensures multiset(Sort(names)) == multiset(names)
  {
    if names != [] {
      var init, last := names[..|names| - 1], names[|names| - 1];
      SortSorts(init);
      InsertSorts(last, Sort(init));
      InsertKeepsNames(last, Sort(init));
      assert names == init + [last];
    }
  }

  lemma {:induction false} DedupAscends(names: seq<string>)
    requires Sorted(names)
    ensures Ascending(Dedup(names))
    ensures SameElements(Dedup(names), names)
    ensures names != [] ==> Dedup(names) != [] && Dedup(names)[|Dedup(names)| - 1] == names[|names| - 1]
  {
    if |names| > 1 {
      var init, last := names[..|names| - 1], names[|names| - 1];
      DedupAscends(init);
      assert names == init + [last];
      if names[|names| - 2] != last {
        var kept := Dedup(init);
        forall i | 0 <= i < |kept|
          ensures Below(kept[i], last)
        {
          LastIsAbove(names, kept, i);
        }
      }
    }
  }

  lemma LastIsAbove(names: seq<string>, kept: seq<string>, i: nat)
    requires Sorted(names) && |names| > 1 && names[|names| - 2] != names[|names| - 1]
    requires Ascending(kept) && i < |kept| && kept[|kept| - 1] == names[|names| - 2]
    ensures Below(kept[i], names[|names| - 1])
  {
    var before, last := names[|names| - 2], names[|names| - 1];
    BelowIsTotal(before, last);
    if i < |kept| - 1 {
      BelowIsTransitive(kept[i], before, last);
    }
  }

  /** What `sort` and `dedup` leave depends on the set of names only, and is that set in order. */
  lemma SortDedupIsCanonical(names: seq<string>, ordered: seq<string>)
    ensures Ascending(Dedup(Sort(names)))
    ensures SameElements(Dedup(Sort(names)), names)
    ensures Ascending(ordered) && SameElements(ordered, names) ==> ordered == Dedup(Sort(names))
  {
    SortSorts(names);
    DedupAscends(Sort(names));
    forall s
      ensures s in Dedup(Sort(names)) <==> s in names
    {
      assert s in Dedup(Sort(names)) <==> s in Sort(names);
      assert s in Sort(names) <==> s in multiset(Sort(names));
      assert s in names <==> s in multiset(names);
    }
    if Ascending(ordered) && SameElements(ordered, names) {
      AscendingUnique(ordered, Dedup(Sort(names)));
    }
  }

  method SortDedup(names: seq<string>) returns (unique: seq<string>)
    ensures unique == Dedup(Sort(names))
  {
    var sorted := [];
    for i := 0 to |names|
      invariant sorted == Sort(names[..i])
    {
      assert names[..i + 1][..i] == names[..i];
      sorted := Insert(names[i], sorted);
    }
    assert names[..|names|] == names;
    unique := [];
    for i := 0 to |sorted|
      invariant unique == Dedup(sorted[..i])
    {
      assert sorted[..i + 1][..i] == sorted[..i];
      if i == 0 || sorted[i - 1] != sorted[i] {
        unique := unique + [sorted[i]];
      }
    }
    assert sorted[..|sorted|] == sorted;
  }

  method SnapshotCircuits(client: RegistryClient, version: string, names: seq<string>) returns (r: Result<RegistrySnapshot>)
    ensures r == client.Snapshot(version, names)
  {
    var manifest :- client.FetchManifest(version);
    var unique := SortDedup(names);
    var circuits := [];
    assert unique[0..] == unique;
    JoinNothing(client.Fingerprints(manifest, unique));
    for i := 0 to |unique|
      invariant client.Fingerprints(manifest, unique) == Join(circuits, client.Fingerprints(manifest, unique[i..]))
    {
      assert unique[i..][1..] == unique[i + 1..];
      var fingerprint :- client.Fingerprint(manifest, unique[i]);
      JoinTwice(circuits, [fingerprint], client.Fingerprints(manifest, unique[i + 1..]));
      circuits := circuits + [fingerprint];
    }
    assert circuits + [] == circuits;
    return Ok(RegistrySnapshot(manifest.version, manifest.root, circuits));
  }

  // ----- what a snapshot depends on

  /** Order and repetition of the requested names make no difference. */
  lemma SnapshotIgnoresOrder(client: RegistryClient, version: string, names: seq<string>, others: seq<string>)
    requires SameElements(names, others)
    ensures client.Snapshot(version, names) == client.Snapshot(version, others)
  {
    SortDedupIsCanonical(names, []);
    SortDedupIsCanonical(others, Dedup(Sort(names)));
  }

  lemma {:induction false} FingerprintsExist(client: RegistryClient, manifest: Manifest, names: seq<string>)
    ensures client.Fingerprints(manifest, names).Ok?
       <==> forall s :: s in names ==> client.Fingerprint(manifest, s).Ok?
    ensures client.Fingerprints(manifest, names).Ok? ==>
              var list := client.Fingerprints(manifest, names).value;
              && |list| == |names|
              && forall i :: 0 <= i < |names| ==> client.Fingerprint(manifest, names[i]) == Ok(list[i])
  {
    if names != [] {
      FingerprintsExist(client, manifest, names[1..]);
      assert names == [names[0]] + names[1..];
    }
  }

  /** The manifest lists the name, and an artifact is served under the hash that it lists. */
  predicate IsServed(client: RegistryClient, manifest: Manifest, name: string) {
    name in manifest.circuits && manifest.circuits[name].hash in client.artifacts
  }

  /** What the manifest lists under the name, and what is served under the hash that it lists. */
  predicate IsFingerprint(client: RegistryClient, manifest: Manifest, name: string, f: CircuitFingerprint) {
    && name in manifest.circuits && f.name == name
    && f.manifestHash == manifest.circuits[name].hash && f.manifestSize == manifest.circuits[name].size
    && f.manifestHash in client.artifacts
    && f.noirVersion == client.artifacts[f.manifestHash].noirVersion
    && f.bbVersion == client.artifacts[f.manifestHash].bbVersion
    && f.vkeyHash == client.artifacts[f.manifestHash].vkeyHash
  }

  /**
   * A snapshot exists exactly when the manifest and every named artifact do, and then it lists each
   * name once, in ascending order, with the fingerprint that the registry serves for it.
   */
  lemma SnapshotIsComplete(client: RegistryClient, version: string, names: seq<string>)
    ensures client.Snapshot(version, names).Ok?
       <==> version in client.manifests
            && forall s :: s in names ==> IsServed(client, client.manifests[version], s)
    ensures client.Snapshot(version, names).Ok? ==>
              var snapshot, unique := client.Snapshot(version, names).value, Dedup(Sort(names));
              && snapshot.manifestVersion == client.manifests[version].version
              && snapshot.manifestRoot == client.manifests[version].root
              && |snapshot.circuits| == |unique|
              && forall i :: 0 <= i < |unique| ==>
                   IsFingerprint(client, client.manifests[version], unique[i], snapshot.circuits[i])
  {
    if version in client.manifests {
      FingerprintsExist(client, client.manifests[version], Dedup(Sort(names)));
      SortDedupIsCanonical(names, []);
    }
  }
}
