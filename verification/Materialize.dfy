/** `materialize_snapshot`: copying a snapshot's manifest and circuits into a directory. */
module Materialize {
  import opened Wrappers
  import opened Registry

  /** A JSON file holds a value that decodes to itself, unless writing it stopped half-way. */
  datatype File<T> = Whole(value: T) | Torn {
    function Load(): Result<T> {
      if Whole? then Ok(value) else Err
    }
  }

  /** `room` writes still succeed; the next one fails, and leaves a torn file if `tears` holds. */
  datatype Disk = Disk(room: nat, tears: bool)

  /** `manifest.json` and `circuits/<name>.json`. */
  datatype Directory = Directory(manifest: Option<File<Manifest>>, circuits: map<string, File<PackagedCircuit>>)

  const EMPTY := Directory(None, map[])

  datatype Ending = Complete | Rejected | WriteFailed

  datatype Copy = Copy(dir: Directory, disk: Disk, ending: Ending)

  /** The comparison of one fingerprint with what the registry serves now. */
  function Check(client: RegistryClient, manifest: Manifest, f: CircuitFingerprint): Result<PackagedCircuit> {
    if f.name !in manifest.circuits then Err
    else if manifest.circuits[f.name].hash != f.manifestHash then Err
    else if manifest.circuits[f.name].size != f.manifestSize then Err
    else
      var artifact :- client.FetchPackagedCircuit(manifest, f.name);
      if artifact.vkeyHash != f.vkeyHash then Err
      else if artifact.noirVersion != f.noirVersion then Err
      else if artifact.bbVersion != f.bbVersion then Err
      else Ok(artifact)
  }

  function CopyCircuits(client: RegistryClient, manifest: Manifest, fingerprints: seq<CircuitFingerprint>,
                        dir: Directory, disk: Disk): Copy
  {
    if fingerprints == [] then Copy(dir, disk, Complete)
    else
      var f := fingerprints[0];
      match Check(client, manifest, f)
      case Err => Copy(dir, disk, Rejected)
      case Ok(artifact) =>
        if disk.room > 0 then
          CopyCircuits(client, manifest, fingerprints[1..],
                       dir.(circuits := dir.circuits[f.name := Whole(artifact)]), disk.(room := disk.room - 1))
        else
          Copy(if disk.tears then dir.(circuits := dir.circuits[f.name := Torn]) else dir, disk, WriteFailed)
  }

  function CopySnapshot(client: RegistryClient, snapshot: RegistrySnapshot, dir: Directory, disk: Disk): Copy {
    match client.FetchManifest(snapshot.manifestVersion)
    case Err => Copy(dir, disk, Rejected)
    case Ok(manifest) =>
      if manifest.root != snapshot.manifestRoot then Copy(dir, disk, Rejected)
      else if disk.room > 0 then
        CopyCircuits(client, manifest, snapshot.circuits,
                     dir.(manifest := Some(Whole(manifest))), disk.(room := disk.room - 1))
      else
        Copy(if disk.tears then dir.(manifest := Some(Torn)) else dir, disk, WriteFailed)
  }

  // ----- the operation on a directory

  class OutputDirectory {
    var manifest: Option<File<Manifest>>
    var circuits: map<string, File<PackagedCircuit>>
    var disk: Disk

    function Contents(): Directory
      reads this
    {
      Directory(manifest, circuits)
    }

    constructor (disk: Disk)
      ensures Contents() == EMPTY && this.disk == disk
    {
      manifest := None;
      circuits := map[];
      this.disk := disk;
    }

    method WriteManifest(m: Manifest) returns (ok: bool)
      modifies this
      ensures ok <==> old(disk).room > 0
      ensures disk == if ok then Disk(old(disk).room - 1, old(disk).tears) else old(disk)
      ensures circuits == old(circuits)
      ensures manifest == if ok then Some(Whole(m)) else if disk.tears then Some(Torn) else old(manifest)
    {
      if disk.room > 0 {
        manifest := Some(Whole(m));
        disk := disk.(room := disk.room - 1);
        return true;
      }
      if disk.tears {
        manifest := Some(Torn);
      }
      return false;
    }

    method WriteCircuit(name: string, artifact: PackagedCircuit) returns (ok: bool)
      modifies this
      ensures ok <==> old(disk).room > 0
      ensures disk == if ok then Disk(old(disk).room - 1, old(disk).tears) else old(disk)
      ensures manifest == old(manifest)
      ensures circuits == if ok then old(circuits)[name := Whole(artifact)]
                          else if disk.tears then old(circuits)[name := Torn] else old(circuits)
    {
      if disk.room > 0 {
        circuits := circuits[name := Whole(artifact)];
        disk := disk.(room := disk.room - 1);
        return true;
      }
      if disk.tears {
        circuits := circuits[name := Torn];
      }
      return false;
    }
  }

  method MaterializeSnapshot(client: RegistryClient, snapshot: RegistrySnapshot, out: OutputDirectory)
    returns (ending: Ending)
    modifies out
    ensures Copy(out.Contents(), out.disk, ending) == CopySnapshot(client, snapshot, old(out.Contents()), old(out.disk))
  {
    var fetched := client.FetchManifest(snapshot.manifestVersion);
    if fetched.Err? {
      return Rejected;
    }
    var manifest := fetched.value;
    if manifest.root != snapshot.manifestRoot {
      return Rejected;
    }
    var ok := out.WriteManifest(manifest);
    if !ok {
      return WriteFailed;
    }
    var fingerprints := snapshot.circuits;
    for i := 0 to |fingerprints|
      invariant CopySnapshot(client, snapshot, old(out.Contents()), old(out.disk))
             == CopyCircuits(client, manifest, fingerprints[i..], out.Contents(), out.disk)
    {
      var f := fingerprints[i];
      assert fingerprints[i..][1..] == fingerprints[i + 1..];
      if f.name !in manifest.circuits
         || manifest.circuits[f.name].hash != f.manifestHash || manifest.circuits[f.name].size != f.manifestSize {
        return Rejected;
      }
      var artifact := client.FetchPackagedCircuit(manifest, f.name);
      if artifact.Err?
         || artifact.value.vkeyHash != f.vkeyHash
         || artifact.value.noirVersion != f.noirVersion || artifact.value.bbVersion != f.bbVersion {
        return Rejected;
      }
      ok := out.WriteCircuit(f.name, artifact.value);
      if !ok {
        return WriteFailed;
      }
    }
    return Complete;
  }

  // ----- when it succeeds

  /** The field-by-field comparison accepts exactly the fingerprint that a new snapshot would hold. */
  lemma CheckIsFingerprint(client: RegistryClient, manifest: Manifest, f: CircuitFingerprint)
    ensures Check(client, manifest, f).Ok? <==> client.Fingerprint(manifest, f.name) == Ok(f)
    ensures Check(client, manifest, f).Ok? ==> Check(client, manifest, f) == client.FetchPackagedCircuit(manifest, f.name)
  {
  }

  lemma {:induction false} CopyCompletesIff(client: RegistryClient, manifest: Manifest,
                                            fingerprints: seq<CircuitFingerprint>, dir: Directory, disk: Disk)
    requires disk.room >= |fingerprints|
    ensures CopyCircuits(client, manifest, fingerprints, dir, disk).ending == Complete
       <==> forall i :: 0 <= i < |fingerprints| ==> client.Fingerprint(manifest, fingerprints[i].name) == Ok(fingerprints[i])
  {
    if fingerprints != [] {
      CheckIsFingerprint(client, manifest, fingerprints[0]);
      var rest := fingerprints[1..];
      if Check(client, manifest, fingerprints[0]).Ok? {
        var artifact := Check(client, manifest, fingerprints[0]).value;
        CopyCompletesIff(client, manifest, rest,
          dir.(circuits := dir.circuits[fingerprints[0].name := Whole(artifact)]), disk.(room := disk.room - 1));
        assert forall i :: 0 < i < |fingerprints| ==> fingerprints[i] == rest[i - 1];
        assert forall i :: 0 <= i < |rest| ==> rest[i] == fingerprints[i + 1];
      }
    }
  }

  /** A new snapshot of the same names, under the recorded version, gives the recorded contents. */
  ghost predicate SnapshotStillHolds(live: RegistryClient, snapshot: RegistrySnapshot, names: seq<string>) {
    match live.Snapshot(snapshot.manifestVersion, names)
    case Ok(again) => again.manifestRoot == snapshot.manifestRoot && again.circuits == snapshot.circuits
    case Err => false
  }

  /**
   * A snapshot taken from one registry can be materialised from another one, or from the same one
   * later, if and only if the root is equal and taking the snapshot again gives the same circuits.
   */
  lemma MaterializesIff(recorded: RegistryClient, live: RegistryClient, version: string, names: seq<string>,
                        snapshot: RegistrySnapshot, dir: Directory, disk: Disk)
    requires recorded.Snapshot(version, names) == Ok(snapshot)
    requires disk.room > |snapshot.circuits|
    ensures CopySnapshot(live, snapshot, dir, disk).ending == Complete <==> SnapshotStillHolds(live, snapshot, names)
  {
    if snapshot.manifestVersion in live.manifests {
      var manifest := live.manifests[snapshot.manifestVersion];
      var unique := Dedup(Sort(names));
      CopyCompletesIff(live, manifest, snapshot.circuits, dir.(manifest := Some(Whole(manifest))), disk.(room := disk.room - 1));
      FingerprintsExist(recorded, recorded.manifests[version], unique);
      FingerprintsExist(live, manifest, unique);
      SameFingerprints(recorded, live, recorded.manifests[version], manifest, unique, snapshot.circuits);
    }
  }

  lemma SameFingerprints(recorded: RegistryClient, live: RegistryClient, before: Manifest, now: Manifest,
                         names: seq<string>, circuits: seq<CircuitFingerprint>)
    requires recorded.Fingerprints(before, names) == Ok(circuits)
    ensures live.Fingerprints(now, names) == Ok(circuits)
       <==> forall i :: 0 <= i < |circuits| ==> live.Fingerprint(now, circuits[i].name) == Ok(circuits[i])
  {
    FingerprintsExist(recorded, before, names);
    FingerprintsExist(live, now, names);
    assert forall i :: 0 <= i < |names| ==> recorded.Fingerprint(before, names[i]) == Ok(circuits[i]);
    assert forall i :: 0 <= i < |names| ==> circuits[i].name == names[i];
    if forall i :: 0 <= i < |circuits| ==> live.Fingerprint(now, circuits[i].name) == Ok(circuits[i]) {
      forall s | s in names
        ensures live.Fingerprint(now, s).Ok?
      {
        var i :| 0 <= i < |names| && names[i] == s;
        assert live.Fingerprint(now, circuits[i].name) == Ok(circuits[i]);
      }
      var again := live.Fingerprints(now, names).value;
      assert forall i :: 0 <= i < |names| ==> again[i] == circuits[i];
      assert again == circuits;
    }
  }
}
