/** `artifacts.rs`: a local cache with the registry behind it, against the registry itself. */
module ArtifactStore {
  import opened Wrappers
  import opened Registry
  import opened Materialize

  /** The directory may be changed by others; what is modelled is its contents when it is read. */
  datatype ArtifactStore = ArtifactStore(localRoot: Option<Directory>, registry: Option<RegistryClient>) {

    function LoadManifest(version: string): Result<Manifest> {
      if localRoot.Some? && localRoot.value.manifest.Some? then localRoot.value.manifest.value.Load()
      else if registry.Some? then registry.value.FetchManifest(version)
      else Err
    }

    function LoadPackagedCircuit(version: string, name: string): Result<PackagedCircuit> {
      if localRoot.Some? && name in localRoot.value.circuits then localRoot.value.circuits[name].Load()
      else if registry.Some? then
        var manifest :- LoadManifest(version);
        registry.value.FetchPackagedCircuit(manifest, name)
      else Err
    }
  }

  function Local(root: Directory): ArtifactStore {
    ArtifactStore(Some(root), None)
  }

  function LocalWithRegistryFallback(root: Directory, client: RegistryClient): ArtifactStore {
    ArtifactStore(Some(root), Some(client))
  }

  function FromRegistry(client: RegistryClient): ArtifactStore {
    ArtifactStore(None, Some(client))
  }

  /** Two stores that no caller who asks for this version can tell apart. */
  ghost predicate Agree(a: ArtifactStore, b: ArtifactStore, version: string) {
    && a.LoadManifest(version) == b.LoadManifest(version)
    && forall name :: a.LoadPackagedCircuit(version, name) == b.LoadPackagedCircuit(version, name)
  }

  /** Every file that is there holds what the registry serves for the version. */
  ghost predicate Mirrors(dir: Directory, client: RegistryClient, version: string) {
    && (dir.manifest.Some? ==> dir.manifest.value.Load() == client.FetchManifest(version))
    && forall name :: name in dir.circuits ==>
         dir.circuits[name].Load() == FromRegistry(client).LoadPackagedCircuit(version, name)
  }

  /** The cache is transparent exactly when none of its files contradicts the registry. */
  lemma AgreeIffMirrors(dir: Directory, client: RegistryClient, version: string)
    ensures Agree(LocalWithRegistryFallback(dir, client), FromRegistry(client), version) <==> Mirrors(dir, client, version)
  {
    var cached, direct := LocalWithRegistryFallback(dir, client), FromRegistry(client);
    if Agree(cached, direct, version) {
      forall name | name in dir.circuits
        ensures dir.circuits[name].Load() == direct.LoadPackagedCircuit(version, name)
      {
        assert cached.LoadPackagedCircuit(version, name) == direct.LoadPackagedCircuit(version, name);
      }
    }
  }

  /** No write of this copy was cut in half. */
  predicate NothingTorn(copy: Copy) {
    copy.ending == WriteFailed ==> !copy.disk.tears
  }

  lemma {:induction false} CopyMirrorsIff(client: RegistryClient, version: string, manifest: Manifest,
                                          fingerprints: seq<CircuitFingerprint>, dir: Directory, disk: Disk)
    requires client.FetchManifest(version) == Ok(manifest)
    requires Mirrors(dir, client, version)
    ensures var copy := CopyCircuits(client, manifest, fingerprints, dir, disk);
            Mirrors(copy.dir, client, version) <==> NothingTorn(copy)
  {
    if fingerprints != [] {
      var f := fingerprints[0];
      CheckIsFingerprint(client, manifest, f);
      if Check(client, manifest, f).Ok? {
        if disk.room > 0 {
          var artifact := Check(client, manifest, f).value;
          var next := dir.(circuits := dir.circuits[f.name := Whole(artifact)]);
          assert next.circuits[f.name].Load() == FromRegistry(client).LoadPackagedCircuit(version, f.name);
          CopyMirrorsIff(client, version, manifest, fingerprints[1..], next, disk.(room := disk.room - 1));
        } else if disk.tears {
          var torn := dir.circuits[f.name := Torn];
          assert f.name in torn && torn[f.name].Load().Err?;
          assert FromRegistry(client).LoadPackagedCircuit(version, f.name).Ok?;
        }
      }
    }
  }

  lemma SnapshotCopyMirrorsIff(client: RegistryClient, snapshot: RegistrySnapshot, dir: Directory, disk: Disk)
    requires Mirrors(dir, client, snapshot.manifestVersion)
    ensures var copy := CopySnapshot(client, snapshot, dir, disk);
            Mirrors(copy.dir, client, snapshot.manifestVersion) <==> NothingTorn(copy)
  {
    var version := snapshot.manifestVersion;
    if version in client.manifests && client.manifests[version].root == snapshot.manifestRoot && disk.room > 0 {
      var manifest := client.manifests[version];
      var next := dir.(manifest := Some(Whole(manifest)));
      CopyMirrorsIff(client, version, manifest, snapshot.circuits, next, disk.(room := disk.room - 1));
    }
  }

  /**
   * However materialising into an empty directory ended, complete, rejected by a check or by a
   * failing write, the cache with fallback and the registry give the same manifest and the same
   * result for every circuit name, unless a write was cut in half; then they do not.
   */
  lemma CacheIsTransparentIff(client: RegistryClient, snapshot: RegistrySnapshot, disk: Disk)
    ensures var copy := CopySnapshot(client, snapshot, EMPTY, disk);
            Agree(LocalWithRegistryFallback(copy.dir, client), FromRegistry(client), snapshot.manifestVersion)
            <==> NothingTorn(copy)
  {
    SnapshotCopyMirrorsIff(client, snapshot, EMPTY, disk);
    AgreeIffMirrors(CopySnapshot(client, snapshot, EMPTY, disk).dir, client, snapshot.manifestVersion);
  }

  /** How many circuits are accepted before the first one that is not. */
  function Accepted(client: RegistryClient, manifest: Manifest, fingerprints: seq<CircuitFingerprint>): nat {
    if fingerprints == [] || Check(client, manifest, fingerprints[0]).Err? then 0
    else 1 + Accepted(client, manifest, fingerprints[1..])
  }

  /** How many files the copy writes, if the disk has room for them. */
  function Writes(client: RegistryClient, snapshot: RegistrySnapshot): nat {
    match client.FetchManifest(snapshot.manifestVersion)
    case Err => 0
    case Ok(manifest) =>
      if manifest.root != snapshot.manifestRoot then 0 else 1 + Accepted(client, manifest, snapshot.circuits)
  }

  lemma {:induction false} CopyFailsIff(client: RegistryClient, manifest: Manifest, fingerprints: seq<CircuitFingerprint>,
                                        dir: Directory, disk: Disk)
    ensures var copy := CopyCircuits(client, manifest, fingerprints, dir, disk);
            && (copy.ending == WriteFailed <==> disk.room < Accepted(client, manifest, fingerprints))
            && copy.disk.tears == disk.tears
            && copy.disk.room == (if copy.ending == WriteFailed then 0 else disk.room - Accepted(client, manifest, fingerprints))
            && copy.dir.manifest == dir.manifest
    ensures Accepted(client, manifest, fingerprints) <= |fingerprints|
  {
    hide Check;
    if fingerprints != [] && Check(client, manifest, fingerprints[0]).Ok? {
      var artifact := Check(client, manifest, fingerprints[0]).value;
      CopyFailsIff(client, manifest, fingerprints[1..],
        dir.(circuits := dir.circuits[fingerprints[0].name := Whole(artifact)]),
        if disk.room > 0 then disk.(room := disk.room - 1) else disk);
    }
  }

  /** A condition on the registry, the snapshot and the disk alone: room for every write, or writes that do not tear. */
  lemma CacheIsTransparentFor(client: RegistryClient, snapshot: RegistrySnapshot, disk: Disk)
    ensures Agree(LocalWithRegistryFallback(CopySnapshot(client, snapshot, EMPTY, disk).dir, client),
                  FromRegistry(client), snapshot.manifestVersion)
       <==> (disk.tears ==> Writes(client, snapshot) <= disk.room)
    ensures Writes(client, snapshot) <= 1 + |snapshot.circuits|
  {
    hide Agree, CopyCircuits, Accepted;
    CacheIsTransparentIff(client, snapshot, disk);
    if snapshot.manifestVersion in client.manifests {
      var manifest := client.manifests[snapshot.manifestVersion];
      CopyFailsIff(client, manifest, snapshot.circuits,
        EMPTY.(manifest := Some(Whole(manifest))), if disk.room > 0 then disk.(room := disk.room - 1) else disk);
    }
  }

  /** The manifest is written first: no copy, however it ended, has circuits without it; and each write takes its room. */
  lemma ManifestComesFirst(client: RegistryClient, snapshot: RegistrySnapshot, disk: Disk)
    ensures var copy := CopySnapshot(client, snapshot, EMPTY, disk);
            && (copy.dir.circuits != map[] ==>
                  snapshot.manifestVersion in client.manifests
                  && copy.dir.manifest == Some(Whole(client.manifests[snapshot.manifestVersion])))
            && (copy.ending == WriteFailed <==> disk.room < Writes(client, snapshot))
            && copy.disk.room == if copy.ending == WriteFailed then 0 else disk.room - Writes(client, snapshot)
  {
    hide CopyCircuits, Accepted;
    if snapshot.manifestVersion in client.manifests {
      var manifest := client.manifests[snapshot.manifestVersion];
      CopyFailsIff(client, manifest, snapshot.circuits,
        EMPTY.(manifest := Some(Whole(manifest))), if disk.room > 0 then disk.(room := disk.room - 1) else disk);
    }
  }

  /** Copying again, or another snapshot of the same version, keeps the cache transparent. */
  lemma CacheStaysTransparent(client: RegistryClient, snapshot: RegistrySnapshot, dir: Directory, disk: Disk)
    requires Agree(LocalWithRegistryFallback(dir, client), FromRegistry(client), snapshot.manifestVersion)
    ensures var copy := CopySnapshot(client, snapshot, dir, disk);
            Agree(LocalWithRegistryFallback(copy.dir, client), FromRegistry(client), snapshot.manifestVersion)
            <==> NothingTorn(copy)
  {
    AgreeIffMirrors(dir, client, snapshot.manifestVersion);
    SnapshotCopyMirrorsIff(client, snapshot, dir, disk);
    AgreeIffMirrors(CopySnapshot(client, snapshot, dir, disk).dir, client, snapshot.manifestVersion);
  }

  ghost predicate Lists(fingerprints: seq<CircuitFingerprint>, name: string) {
    exists i :: 0 <= i < |fingerprints| && fingerprints[i].name == name
  }

  lemma {:induction false} CompleteCopyHasAll(client: RegistryClient, manifest: Manifest,
                                              fingerprints: seq<CircuitFingerprint>, dir: Directory, disk: Disk, name: string)
    ensures var copy := CopyCircuits(client, manifest, fingerprints, dir, disk);
            copy.ending == Complete ==>
              && copy.dir.manifest == dir.manifest
              && (name in copy.dir.circuits <==> name in dir.circuits || Lists(fingerprints, name))
              && (Lists(fingerprints, name) ==>
                    && client.FetchPackagedCircuit(manifest, name).Ok?
                    && copy.dir.circuits[name] == Whole(client.FetchPackagedCircuit(manifest, name).value))
              && (!Lists(fingerprints, name) && name in dir.circuits ==> copy.dir.circuits[name] == dir.circuits[name])
  {
    if fingerprints != [] {
      var f, rest := fingerprints[0], fingerprints[1..];
      CheckIsFingerprint(client, manifest, f);
      ListsFirst(fingerprints, name);
      if Check(client, manifest, f).Ok? && disk.room > 0 {
        var artifact := Check(client, manifest, f).value;
        CompleteCopyHasAll(client, manifest, rest,
          dir.(circuits := dir.circuits[f.name := Whole(artifact)]), disk.(room := disk.room - 1), name);
      }
    }
  }

  lemma ListsFirst(fingerprints: seq<CircuitFingerprint>, name: string)
    requires fingerprints != []
    ensures Lists(fingerprints, name) <==> fingerprints[0].name == name || Lists(fingerprints[1..], name)
  {
    if Lists(fingerprints[1..], name) {
      var i :| 0 <= i < |fingerprints[1..]| && fingerprints[1..][i].name == name;
      assert fingerprints[i + 1].name == name;
    }
    if Lists(fingerprints, name) {
      var i :| 0 <= i < |fingerprints| && fingerprints[i].name == name;
      assert i > 0 ==> fingerprints[1..][i - 1].name == name;
    }
  }

  /** A complete copy serves exactly the snapshot's circuits without any registry. */
  lemma CompleteCopyStandsAlone(client: RegistryClient, snapshot: RegistrySnapshot, disk: Disk, name: string)
    requires CopySnapshot(client, snapshot, EMPTY, disk).ending == Complete
    ensures var version := snapshot.manifestVersion;
            var local := Local(CopySnapshot(client, snapshot, EMPTY, disk).dir);
            && local.LoadManifest(version) == client.FetchManifest(version)
            && local.LoadPackagedCircuit(version, name)
               == if Lists(snapshot.circuits, name) then FromRegistry(client).LoadPackagedCircuit(version, name) else Err
  {
    var manifest := client.manifests[snapshot.manifestVersion];
    CompleteCopyHasAll(client, manifest, snapshot.circuits,
      EMPTY.(manifest := Some(Whole(manifest))), disk.(room := disk.room - 1), name);
  }

  /**
   * The version argument is ignored once a manifest is there: for another version the complete copy
   * agrees with the registry only if the registry serves the same manifest under both.
   */
  lemma OtherVersionsAgreeIff(client: RegistryClient, snapshot: RegistrySnapshot, disk: Disk, version: string)
    requires CopySnapshot(client, snapshot, EMPTY, disk).ending == Complete
    ensures var dir := CopySnapshot(client, snapshot, EMPTY, disk).dir;
            Agree(LocalWithRegistryFallback(dir, client), FromRegistry(client), version)
            <==> client.FetchManifest(version) == client.FetchManifest(snapshot.manifestVersion)
  {
    var copy := CopySnapshot(client, snapshot, EMPTY, disk);
    var recorded := snapshot.manifestVersion;
    CompleteCopyStandsAlone(client, snapshot, disk, "");
    assert LocalWithRegistryFallback(copy.dir, client).LoadManifest(version) == client.FetchManifest(recorded);
    if client.FetchManifest(version) == client.FetchManifest(recorded) {
      CacheIsTransparentIff(client, snapshot, disk);
      AgreeIffMirrors(copy.dir, client, recorded);
      AgreeIffMirrors(copy.dir, client, version);
    }
  }
}
