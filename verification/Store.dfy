/**
 * The two MongoDB collections: documents, unique indexes and the updates that `mongodb.go` makes.
 */
module Store {
  import opened Wrappers
  import opened Disclosure

  datatype Petition = Petition(required: seq<string>, count: nat)

  datatype Signature = Signature(petitionId: string, nullifier: string, fields: seq<string>)

  /** `petitions` is keyed by its unique index on `petition_id`. */
  datatype Db = Db(petitions: map<string, Petition>, signatures: seq<Signature>) {

    /** A signature with this pair is stored: the unique index on (petition_id, nullifier). */
    predicate Taken(petitionId: string, nullifier: string) {
      exists i :: 0 <= i < |signatures| && signatures[i].petitionId == petitionId && signatures[i].nullifier == nullifier
    }

    function Insert(sig: Signature): Db {
      this.(signatures := signatures + [sig])
    }

    /** `$inc` on the petition's document, if there is one. */
    function Increment(petitionId: string): Db {
      if petitionId in petitions then
        this.(petitions := petitions[petitionId := petitions[petitionId].(count := petitions[petitionId].count + 1)])
      else this
    }

    function Create(petitionId: string, required: seq<string>): Db {
      if petitionId in petitions then this
      else this.(petitions := petitions[petitionId := Petition(required, 0)])
    }

    /** The petition's counter; a petition without document counts nothing. */
    function Count(petitionId: string): nat {
      if petitionId in petitions then petitions[petitionId].count else 0
    }

    /** The number of stored signatures of a petition. */
    function Stored(petitionId: string): nat {
      StoredIn(signatures, petitionId)
    }
  }

  function StoredIn(signatures: seq<Signature>, petitionId: string): nat {
    if signatures == [] then 0
    else StoredIn(signatures[..|signatures| - 1], petitionId)
         + if signatures[|signatures| - 1].petitionId == petitionId then 1 else 0
  }

  lemma StoredAfterInsert(db: Db, sig: Signature, petitionId: string)
    ensures db.Insert(sig).Stored(petitionId)
         == db.Stored(petitionId) + if sig.petitionId == petitionId then 1 else 0
  {
    assert db.Insert(sig).signatures[..|db.signatures|] == db.signatures;
  }

  /** How a database call can end: the last one is applied although the caller sees an error. */
  datatype Fault = Healthy | NotApplied | AppliedUnseen

  datatype SaveResult = Saved | AlreadyExists | InsertFailed | UpdateFailed

  datatype CreateResult = Created | IdExists | CreateFailed

  /** What saving does to the database: the insert and the increment are separate commands. */
  function Save(db: Db, sig: Signature, insert: Fault, update: Fault): (Db, SaveResult) {
    if insert == NotApplied then (db, InsertFailed)
    else if db.Taken(sig.petitionId, sig.nullifier) then (db, if insert == Healthy then AlreadyExists else InsertFailed)
    else if insert == AppliedUnseen then (db.Insert(sig), InsertFailed)
    else if update == NotApplied then (db.Insert(sig), UpdateFailed)
    else (db.Insert(sig).Increment(sig.petitionId), if update == Healthy then Saved else UpdateFailed)
  }

  /** Saving adds the document of a new pair, and one to its petition's counter, as far as the commands take effect. */
  lemma SaveChanges(db: Db, sig: Signature, insert: Fault, update: Fault)
    ensures var taken := exists i :: 0 <= i < |db.signatures|
                           && db.signatures[i].petitionId == sig.petitionId && db.signatures[i].nullifier == sig.nullifier;
            var stored := insert != NotApplied && !taken;
            var counted := stored && insert == Healthy && update != NotApplied && sig.petitionId in db.petitions;
            var (after, r) := Save(db, sig, insert, update);
            && after.signatures == db.signatures + (if stored then [sig] else [])
            && after.petitions
               == (if counted then
                     var petition := db.petitions[sig.petitionId];
                     db.petitions[sig.petitionId := Petition(petition.required, petition.count + 1)]
                   else db.petitions)
            && (r == AlreadyExists <==> insert == Healthy && taken)
  {
  }

  class MongoDb {
    var petitions: map<string, Petition>
    var signatures: seq<Signature>

    function Contents(): Db
      reads this
    {
      Db(petitions, signatures)
    }

    constructor ()
      ensures Contents() == Db(map[], [])
    {
      petitions := map[];
      signatures := [];
    }

    /** An empty ID is replaced by a fresh one; the unique index refuses an ID that is taken. */
    method CreatePetition(petitionId: string, freshId: string, query: Query, fault: Fault)
      returns (r: CreateResult, id: string, ghost required: seq<string>)
      modifies this
      ensures id == if petitionId == "" then freshId else petitionId
      ensures IsFieldList(query, required)
      ensures r == if fault != Healthy then CreateFailed else if id in old(petitions) then IdExists else Created
      ensures Contents() == if fault == NotApplied then old(Contents()) else old(Contents()).Create(id, required)
      ensures fault != NotApplied && id !in old(petitions) ==>
                && id in petitions && petitions[id].count == 0 && IsFieldList(query, petitions[id].required)
                && petitions - {id} == old(petitions)
      ensures fault == NotApplied || id in old(petitions) ==> petitions == old(petitions)
      ensures signatures == old(signatures)
    {
      id := if petitionId == "" then freshId else petitionId;
      var fields := CollectDisclosedFields(query);
      required := fields;
      var taken := id in petitions;
      if fault != NotApplied && !taken {
        petitions := petitions[id := Petition(fields, 0)];
      }
      if fault != Healthy {
        return CreateFailed, id, required;
      }
      return if taken then IdExists else Created, id, required;
    }

    /** No document is not an error. */
    method GetPetition(petitionId: string, fails: bool) returns (r: Result<Option<Petition>>)
      ensures r == if fails then Err
                   else if petitionId in petitions then Ok(Some(petitions[petitionId])) else Ok(None)
    {
      if fails {
        return Err;
      }
      if petitionId in petitions {
        return Ok(Some(petitions[petitionId]));
      }
      return Ok(None);
    }

    method CountDocuments(petitionId: string, nullifier: string) returns (count: nat)
      ensures count > 0 <==> Contents().Taken(petitionId, nullifier)
    {
      count := 0;
      for i := 0 to |signatures|
        invariant count > 0 <==>
          exists j :: 0 <= j < i && signatures[j].petitionId == petitionId && signatures[j].nullifier == nullifier
      {
        if signatures[i].petitionId == petitionId && signatures[i].nullifier == nullifier {
          count := count + 1;
        }
      }
    }

    method SignatureExists(petitionId: string, nullifier: string, fails: bool) returns (r: Result<bool>)
      ensures r == if fails then Err else Ok(Contents().Taken(petitionId, nullifier))
    {
      if fails {
        return Err;
      }
      var count := CountDocuments(petitionId, nullifier);
      return Ok(count > 0);
    }

    /** The unique index refuses a second document with the same pair. */
    method InsertOne(sig: Signature, fault: Fault) returns (ok: bool, duplicate: bool)
      modifies this
      ensures duplicate <==> fault == Healthy && old(Contents()).Taken(sig.petitionId, sig.nullifier)
      ensures ok <==> fault == Healthy && !duplicate
      ensures Contents() == if fault == NotApplied || old(Contents()).Taken(sig.petitionId, sig.nullifier)
                            then old(Contents()) else old(Contents()).Insert(sig)
    {
      var count := CountDocuments(sig.petitionId, sig.nullifier);
      var taken := count > 0;
      if !taken && fault != NotApplied {
        signatures := signatures + [sig];
      }
      return fault == Healthy && !taken, fault == Healthy && taken;
    }

    method IncrementCount(petitionId: string, fault: Fault) returns (ok: bool)
      modifies this
      ensures ok <==> fault == Healthy
      ensures Contents() == if fault == NotApplied then old(Contents()) else old(Contents()).Increment(petitionId)
    {
      if fault != NotApplied && petitionId in petitions {
        var petition := petitions[petitionId];
        petitions := petitions[petitionId := petition.(count := petition.count + 1)];
      }
      return fault == Healthy;
    }

    method SaveSignature(sig: Signature, insert: Fault, update: Fault) returns (r: SaveResult)
      modifies this
      ensures (Contents(), r) == Save(old(Contents()), sig, insert, update)
    {
      var ok, duplicate := InsertOne(sig, insert);
      if !ok {
        return if duplicate then AlreadyExists else InsertFailed;
      }
      ok := IncrementCount(sig.petitionId, update);
      return if ok then Saved else UpdateFailed;
    }
  }
}
