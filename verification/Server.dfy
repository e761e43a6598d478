/** `handleAggregateProofs`, run on the real objects. */
module Server {
  import opened Wrappers
  import opened Disclosure
  import opened Store
  import opened Slots
  import opened Answers
  import opened Runs
  import P = Protocol

  /** What one call meets on its way: failures, cancellation and the prover's answer. */
  datatype Environment = Environment(
    lookupFails: bool,
    checkFails: bool,
    valid: bool,                // the request passes the checks at the top of `Aggregate`
    contextDone: bool,
    proof: Option<string>,      // the outer proof's nullifier, if proving succeeds
    insert: Fault,
    update: Fault)

  // ----- what a call does, as a function of the state and of what it meets

  predicate One(s: P.State, phase: P.Phase) {
    |s.requests| == 1 && s.Phase(0) == phase
  }

  /** Lookup, field check and duplicate check. */
  function Admission(s: P.State, env: Environment): P.Phase
    requires One(s, P.Received)
  {
    var looked := P.LookStep(s, 0, env.lookupFails);
    if looked.LookedUp? then P.PreCheckStep(s.Goto(0, looked), 0, env.checkFails) else looked
  }

  /** Saving after a proof, unless there is nothing to save. */
  function Conclusion(s: P.State, env: Environment): P.State
    requires |s.requests| == 1 && s.Phase(0).Returned?
  {
    var t := P.SaveStep(s, 0, env.insert);
    if t.Phase(0).Inserted? then P.IncreaseStep(t, 0, env.update) else t
  }

  /** The state after the call; `refused` says that the request was not let in to the prover. */
  function Handled(s: P.State, env: Environment, refused: bool): P.State
    requires One(s, P.Received)
  {
    var phase := Admission(s, env);
    if !phase.Waiting? then s.Goto(0, phase)
    else if refused then s.Goto(0, P.Finished(P.Refused))
    else Conclusion(s.Goto(0, P.Returned(phase.lookup, env.proof)), env)
  }

  // ----- that function as a run of the transition system

  /** The step takes exactly what the environment gives. */
  predicate Obeys(step: P.Step, env: Environment) {
    match step
    case Look(i, fails) => i == 0 && fails == env.lookupFails
    case PreCheck(i, fails) => i == 0 && fails == env.checkFails
    case Refuse(i) => i == 0 && (!env.valid || env.contextDone)
    case Push(i) => i == 0 && env.valid
    case CountIn(i) => i == 0
    case Pop(i, result) => i == 0 && result == env.proof
    case CountOut(i) => i == 0
    case Save(i, fault) => i == 0 && fault == env.insert
    case Increase(i, fault) => i == 0 && fault == env.update
    case Create(_, _) => false
  }

  predicate Follows(steps: seq<P.Step>, env: Environment) {
    forall k :: 0 <= k < |steps| ==> Obeys(steps[k], env)
  }

  lemma FollowsConcat(a: seq<P.Step>, b: seq<P.Step>, env: Environment)
    requires Follows(a, env) && Follows(b, env)
    ensures Follows(a + b, env)
  {
  }

  lemma AdmissionIsRun(s: P.State, env: Environment) returns (steps: seq<P.Step>)
    requires One(s, P.Received)
    ensures Replay(s, steps) == Some(s.Goto(0, Admission(s, env))) && Follows(steps, env)
  {
    var look, check := P.Look(0, env.lookupFails), P.PreCheck(0, env.checkFails);
    var looked := P.LookStep(s, 0, env.lookupFails);
    EmptyReplay(s);
    ReplayStep(s, [], s, look);
    assert [] + [look] == [look];
    steps := [look];
    if looked.LookedUp? {
      ReplayStep(s, steps, s.Goto(0, looked), check);
      MoveTwice(s, 0, looked, Admission(s, env));
      steps := steps + [check];
    }
  }

  lemma ConclusionIsRun(s: P.State, steps: seq<P.Step>, t: P.State, env: Environment) returns (more: seq<P.Step>)
    requires Replay(s, steps) == Some(t) && |t.requests| == 1 && t.Phase(0).Returned?
    ensures Replay(s, steps + more) == Some(Conclusion(t, env)) && Follows(more, env)
  {
    hide Replay;
    var save, increase := P.Save(0, env.insert), P.Increase(0, env.update);
    ReplayStep(s, steps, t, save);
    more := [save];
    var saved := P.SaveStep(t, 0, env.insert);
    if saved.Phase(0).Inserted? {
      ReplayStep(s, steps + more, saved, increase);
      assert steps + [save] + [increase] == steps + [save, increase];
      more := [save, increase];
    }
  }

  lemma ProvingFollows(env: Environment)
    requires env.valid
    ensures Follows(ProvingSteps(0, env.proof), env)
  {
  }

  lemma RefusalIsRun(s: P.State, steps: seq<P.Step>, t: P.State, lookup: P.Lookup)
    requires Replay(s, steps) == Some(t) && One(t, P.Waiting(lookup))
    ensures Replay(s, steps + [P.Refuse(0)]) == Some(t.Goto(0, P.Finished(P.Refused)))
  {
    ReplayStep(s, steps, t, P.Refuse(0));
  }

  /** What a call does is a run of enabled steps, each of which takes what the environment gives. */
  lemma HandledIsRun(s: P.State, env: Environment, refused: bool) returns (steps: seq<P.Step>)
    requires One(s, P.Received)
    requires if refused then !env.valid || env.contextDone else env.valid && s.slots < s.capacity
    ensures Replay(s, steps) == Some(Handled(s, env, refused)) && Follows(steps, env)
  {
    hide Replay, Admission, Conclusion, Follows;
    steps := AdmissionIsRun(s, env);
    var phase := Admission(s, env);
    if phase.Waiting? {
      var t := s.Goto(0, phase);
      if refused {
        RefusalIsRun(s, steps, t, phase.lookup);
        MoveTwice(s, 0, phase, P.Finished(P.Refused));
        RefuseFollows(env);
        FollowsConcat(steps, [P.Refuse(0)], env);
        steps := steps + [P.Refuse(0)];
      } else {
        ProvingReplays(s, steps, t, 0, phase.lookup, env.proof);
        MoveTwice(s, 0, phase, P.Returned(phase.lookup, env.proof));
        ProvingFollows(env);
        FollowsConcat(steps, ProvingSteps(0, env.proof), env);
        steps := steps + ProvingSteps(0, env.proof);
        var more := ConclusionIsRun(s, steps, s.Goto(0, P.Returned(phase.lookup, env.proof)), env);
        FollowsConcat(steps, more, env);
        steps := steps + more;
      }
    }
  }

  lemma RefuseFollows(env: Environment)
    requires !env.valid || env.contextDone
    ensures Follows([P.Refuse(0)], env)
  {
  }

  // ----- saving

  /** With one request, moving it replaces the whole list. */
  lemma MoveOne(s: P.State, phase: P.Phase)
    requires |s.requests| == 1
    ensures s.Goto(0, phase) == s.(requests := [P.Request(s.requests[0].input, phase)])
  {
    assert s.requests[0 := s.requests[0].(phase := phase)] == [P.Request(s.requests[0].input, phase)];
  }

  /** How saving ends a request, by the result of `SaveSignature`. */
  function SaveEnding(lookup: P.Lookup, sig: Signature, r: SaveResult, stored: bool, counted: bool): P.Ending {
    match r
    case Saved => P.Kept(lookup, sig.nullifier, counted)
    case UpdateFailed => P.Kept(lookup, sig.nullifier, counted)
    case AlreadyExists => P.LostRace(sig.nullifier)
    case InsertFailed => if stored then P.Kept(lookup, sig.nullifier, false) else P.SaveFailed
  }

  /** The answer to a call of `SaveSignature` that ended like this. */
  function SaveStatus(r: SaveResult, sig: Signature): nat {
    if r == AlreadyExists && Contains(AlreadyExistsText(sig.nullifier, sig.petitionId), DUPLICATE) then 409 else 200
  }

  lemma StatusOfSaving(lookup: P.Lookup, sig: Signature, r: SaveResult, stored: bool, counted: bool)
    ensures Status(SaveEnding(lookup, sig, r, stored, counted), sig.petitionId) == SaveStatus(r, sig)
  {
    hide Contains, AlreadyExistsText;
  }

  predicate SkipsSaving(s: P.State)
    requires |s.requests| == 1 && s.Phase(0).Returned?
  {
    var result := s.Phase(0).result;
    result.None? || !s.hasStorage || s.Input(0).petitionId == "" || result.value == ""
  }

  /** Without a proof, a store, a petition or a nullifier, the request ends and nothing else changes. */
  lemma SkippedConclusion(s: P.State, env: Environment)
    requires |s.requests| == 1 && s.Phase(0).Returned? && SkipsSaving(s)
    ensures Conclusion(s, env)
         == s.Goto(0, P.Finished(if s.Phase(0).result.None? then P.NotProved else P.NothingToSave))
  {
  }

  /** Saving in one call is the insert step followed, if it went well, by the increment step. */
  lemma SavedConclusion(s: P.State, env: Environment, lookup: P.Lookup, nullifier: string)
    requires One(s, P.Returned(lookup, Some(nullifier))) && !SkipsSaving(s)
    ensures var sig := Signature(s.Input(0).petitionId, nullifier, s.Input(0).fields);
            var (db, r) := Save(s.db, sig, env.insert, env.update);
            var counted := env.update != NotApplied && sig.petitionId in s.db.petitions;
            Conclusion(s, env)
            == s.(db := db).Goto(0, P.Finished(SaveEnding(lookup, sig, r, db.signatures != s.db.signatures, counted)))
  {
    var sig := Signature(s.Input(0).petitionId, nullifier, s.Input(0).fields);
    InsertChanges(s.db, sig);
    hide Db.Taken;
    var t := P.SaveStep(s, 0, env.insert);
    if t.Phase(0).Inserted? {
      var u := P.IncreaseStep(t, 0, env.update);
      MoveTwice(s.(db := u.db), 0, t.Phase(0), u.Phase(0));
    }
  }

  lemma InsertChanges(db: Db, sig: Signature)
    ensures db.Insert(sig).signatures != db.signatures
  {
    assert |db.Insert(sig).signatures| == |db.signatures| + 1;
  }

  // ----- the handler

  class AggregateServer {
    const store: MongoDb?
    const service: ProvingService

    constructor (store: MongoDb?, service: ProvingService)
      ensures this.store == store && this.service == service
    {
      this.store := store;
      this.service := service;
    }

    ghost function Documents(): set<object> {
      if store == null then {} else {store}
    }

    ghost function Objects(): set<object> {
      Documents() + {service}
    }

    /** The objects as a state of the transition system with this one request in it. */
    ghost function Snapshot(input: P.Input, phase: P.Phase): P.State
      reads Objects()
    {
      P.State(
        store != null, service.capacity, service.slots, service.inflight,
        if store == null then Db(map[], []) else store.Contents(),
        [P.Request(input, phase)])
    }

    /** A signature with this pair is stored. */
    ghost predicate HasSigned(petitionId: string, nullifier: string)
      reads Documents()
    {
      store != null
      && exists i :: 0 <= i < |store.signatures|
           && store.signatures[i].petitionId == petitionId && store.signatures[i].nullifier == nullifier
    }

    /** The petition is found and requires a field that the request does not provide. */
    ghost predicate LacksField(input: P.Input, env: Environment)
      reads Documents()
    {
      && store != null && input.petitionId != "" && !env.lookupFails && input.petitionId in store.petitions
      && exists f :: f in store.petitions[input.petitionId].required && f !in input.fields
    }

    /** The inner proofs carry a nullifier that has signed the petition before. */
    ghost predicate IsKnown(input: P.Input, env: Environment)
      reads Documents()
    {
      && store != null && input.petitionId != "" && !LacksField(input, env)
      && !env.checkFails && input.innerNullifier != "" && HasSigned(input.petitionId, input.innerNullifier)
    }

    /** There is a proof, and somewhere to record it. */
    ghost predicate Records(petitionId: string, env: Environment) {
      store != null && petitionId != "" && env.proof.Some? && env.proof.value != ""
    }

    /** Another request has stored the same pair in the meantime. */
    ghost predicate LosesRace(petitionId: string, env: Environment)
      reads Documents()
    {
      Records(petitionId, env) && env.insert == Healthy && HasSigned(petitionId, env.proof.value)
    }

    ghost predicate IsStored(petitionId: string, env: Environment)
      reads Documents()
    {
      Records(petitionId, env) && env.insert != NotApplied && !HasSigned(petitionId, env.proof.value)
    }

    ghost predicate IsCounted(petitionId: string, env: Environment)
      reads Documents()
    {
      && IsStored(petitionId, env) && env.insert == Healthy && env.update != NotApplied
      && petitionId in store.petitions
    }

    /** The documents after a request that was proved. */
    twostate predicate HasConcluded(input: P.Input, env: Environment)
      reads Documents()
    {
      store != null ==>
        && store.signatures == old(store.signatures)
             + (if old(IsStored(input.petitionId, env)) then [Signature(input.petitionId, env.proof.value, input.fields)] else [])
        && store.petitions
           == if old(IsCounted(input.petitionId, env)) then
                var petition := old(store.petitions)[input.petitionId];
                old(store.petitions)[input.petitionId := Petition(petition.required, petition.count + 1)]
              else old(store.petitions)
    }

    /** The answer to a request that was let in and not refused. */
    ghost function ConcludedStatus(petitionId: string, env: Environment): nat
      reads Documents()
    {
      if env.proof.None? then 400
      else if LosesRace(petitionId, env)
              && (Contains(env.proof.value, "duplicate") || Contains(petitionId, "duplicate")) then 409
      else 200
    }

    /** Lookup, field check and duplicate check: the request is turned away or may queue for a slot. */
    method Admit(input: P.Input, env: Environment) returns (phase: P.Phase)
      ensures phase == P.Finished(P.FieldsRejected) <==> LacksField(input, env)
      ensures phase == P.Finished(P.DuplicateRejected) <==> IsKnown(input, env)
      ensures phase == Admission(Snapshot(input, P.Received), env)
      ensures phase.Waiting? || phase == P.Finished(P.FieldsRejected) || phase == P.Finished(P.DuplicateRejected)
    {
      if store == null || input.petitionId == "" {
        return P.Waiting(P.Skipped);
      }
      var lookup := P.LookupFailed;
      var fetched := store.GetPetition(input.petitionId, env.lookupFails);
      if fetched.Ok? {
        lookup := P.NotFound;
        if fetched.value.Some? {
          var required := fetched.value.value.required;
          var missing := ValidateDisclosedFields(input.fields, required);
          if missing != [] {
            return P.Finished(P.FieldsRejected);
          }
          lookup := P.Found(required);
        }
      }
      if input.innerNullifier != "" {
        var known := store.SignatureExists(input.petitionId, input.innerNullifier, env.checkFails);
        if known == Ok(true) {
          return P.Finished(P.DuplicateRejected);
        }
      }
      return P.Waiting(lookup);
    }

    /** `Aggregate`: the slot is taken, the prover runs, the slot is given back. */
    method Aggregate(env: Environment) returns (refused: bool, proof: Option<string>)
      requires service.slots < service.capacity || env.contextDone
      modifies service
      ensures refused ==> !env.valid || env.contextDone
      ensures !refused ==> env.valid && old(service.slots) < service.capacity && proof == env.proof
      ensures service.slots == old(service.slots) && service.inflight == old(service.inflight)
    {
      if !env.valid {
        return true, None;
      }
      var acquired := service.Acquire(env.contextDone);
      if !acquired {
        return true, None;
      }
      proof := env.proof;
      service.Release();
      return false, proof;
    }

    /** Saving after a proof, unless there is nothing to save. */
    method Conclude(input: P.Input, lookup: P.Lookup, env: Environment) returns (status: nat, ghost ending: P.Ending)
      modifies Documents()
      ensures Snapshot(input, P.Finished(ending)) == Conclusion(old(Snapshot(input, P.Returned(lookup, env.proof))), env)
      ensures status == Status(ending, input.petitionId)
      ensures HasConcluded(input, env) && status == old(ConcludedStatus(input.petitionId, env))
    {
      hide Conclusion, SaveEnding, Contains, AlreadyExistsText, Db.Taken, Save;
      ghost var start := Snapshot(input, P.Returned(lookup, env.proof));
      if env.proof.None? || store == null || input.petitionId == "" || env.proof.value == "" {
        SkippedConclusion(start, env);
        ending := if env.proof.None? then P.NotProved else P.NothingToSave;
        MoveOne(start, P.Finished(ending));
        return if env.proof.None? then 400 else 200, ending;
      }
      var sig := Signature(input.petitionId, env.proof.value, input.fields);
      SavedConclusion(start, env, lookup, sig.nullifier);
      SaveChanges(start.db, sig, env.insert, env.update);
      ConflictText(sig.nullifier, sig.petitionId);
      var saved := store.SaveSignature(sig, env.insert, env.update);
      ghost var counted := env.update != NotApplied && sig.petitionId in start.db.petitions;
      ghost var stored := store.Contents().signatures != start.db.signatures;
      ending := SaveEnding(lookup, sig, saved, stored, counted);
      StatusOfSaving(lookup, sig, saved, stored, counted);
      MoveOne(start.(db := store.Contents()), P.Finished(ending));
      return SaveStatus(saved, sig), ending;
    }

    /** The documents and the answer after a request: what it was turned away for, or what was recorded. */
    twostate predicate IsAnswered(input: P.Input, env: Environment, refused: bool, status: nat)
      reads Documents()
    {
      if old(LacksField(input, env)) then status == 400 && NothingRecorded()
      else if old(IsKnown(input, env)) then status == 409 && NothingRecorded()
      else if refused then status == 400 && NothingRecorded()
      else status == old(ConcludedStatus(input.petitionId, env)) && HasConcluded(input, env)
    }

    twostate predicate NothingRecorded()
      reads Documents()
    {
      store != null ==> store.signatures == old(store.signatures) && store.petitions == old(store.petitions)
    }

    /** From the field check to the answer. */
    method Serve(input: P.Input, env: Environment) returns (status: nat, ghost refused: bool, ghost ending: P.Ending)
      requires service.slots < service.capacity || env.contextDone
      modifies Objects()
      ensures refused ==> !env.valid || env.contextDone
      ensures !refused ==> env.valid && old(service.slots) < service.capacity
      ensures Snapshot(input, P.Finished(ending)) == Handled(old(Snapshot(input, P.Received)), env, refused)
      ensures status == Status(ending, input.petitionId)
      ensures IsAnswered(input, env, refused, status)
      ensures service.slots == old(service.slots) && service.inflight == old(service.inflight)
    {
      hide Admission, Conclusion, Contains, AlreadyExistsText, LacksField, IsKnown, IsStored, IsCounted, ConcludedStatus;
      ghost var start := Snapshot(input, P.Received);
      refused := !env.valid || env.contextDone;
      var phase := Admit(input, env);
      MoveOne(start, phase);
      if !phase.Waiting? {
        ending := phase.ending;
        return if phase == P.Finished(P.DuplicateRejected) then 409 else 400, refused, ending;
      }
      var turnedAway, proof := Aggregate(env);
      refused := turnedAway;
      if turnedAway {
        ending := P.Refused;
        MoveOne(start, P.Finished(ending));
        return 400, refused, ending;
      }
      MoveOne(start, P.Returned(phase.lookup, env.proof));
      status, ending := Conclude(input, phase.lookup, env);
    }

    /**
     * The whole handler, from the query and the inner proofs to the status.  The objects end up
     * exactly as `Handled` says; the only choice left open is that a request whose context is done
     * may be refused although a slot is free.
     */
    method HandleAggregate(petitionId: string, query: Query, proofs: seq<seq<string>>, env: Environment)
      returns (status: nat, ghost input: P.Input, ghost refused: bool, ghost ending: P.Ending)
      requires service.slots < service.capacity || env.contextDone
      modifies Objects()
      ensures input.petitionId == petitionId && IsFieldList(query, input.fields)
      ensures IsFirstNullifier(proofs, input.innerNullifier)
      ensures refused ==> !env.valid || env.contextDone
      ensures !refused ==> env.valid && old(service.slots) < service.capacity
      ensures Snapshot(input, P.Finished(ending)) == Handled(old(Snapshot(input, P.Received)), env, refused)
      ensures status == Status(ending, petitionId)
      ensures IsAnswered(input, env, refused, status)
      ensures service.slots == old(service.slots) && service.inflight == old(service.inflight)
    {
      hide Handled, Status, LacksField, IsKnown, ConcludedStatus;
      var fields := CollectDisclosedFields(query);
      var nullifier := ExtractNullifier(proofs);
      var request := P.Input(petitionId, fields, nullifier);
      input := request;
      status, refused, ending := Serve(request, env);
    }
  }
}
