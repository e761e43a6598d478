/** What holds in every state that any interleaving of the aggregate protocol reaches. */
module ProtocolSafety {
  import opened Wrappers
  import opened Store
  import opened Disclosure
  import opened Protocol

  // ----- what a request has done so far

  /** The request has put a document into the signatures collection. */
  predicate IsKept(phase: Phase) {
    phase.Inserted? || (phase.Finished? && phase.ending.Kept?)
  }

  function KeptNullifier(phase: Phase): string
    requires IsKept(phase)
  {
    if phase.Inserted? then phase.nullifier else phase.ending.nullifier
  }

  function KeptSignature(r: Request): Signature
    requires IsKept(r.phase)
  {
    Signature(r.input.petitionId, KeptNullifier(r.phase), r.input.fields)
  }

  /** The result of the petition lookup, as long as the request remembers it. */
  function LookupOf(phase: Phase): Lookup {
    match phase
    case Received => Skipped
    case LookedUp(lookup) => lookup
    case Waiting(lookup) => lookup
    case Holding(lookup) => lookup
    case Proving(lookup) => lookup
    case Popped(lookup, _) => lookup
    case Returned(lookup, _) => lookup
    case Inserted(lookup, _) => lookup
    case Finished(ending) => if ending.Kept? then ending.lookup else Skipped
  }

  // ----- the invariants

  predicate SamePair(a: Signature, b: Signature) {
    a.petitionId == b.petitionId && a.nullifier == b.nullifier
  }

  ghost predicate PairsUnique(db: Db) {
    forall i, j :: 0 <= i < j < |db.signatures| ==> !SamePair(db.signatures[i], db.signatures[j])
  }

  /** Every saved request has its document in the collection. */
  ghost predicate KeptAreStored(s: State) {
    forall i :: 0 <= i < |s.requests| && IsKept(s.requests[i].phase) ==> KeptSignature(s.requests[i]) in s.db.signatures
  }

  /** No two requests have saved the same pair. */
  ghost predicate KeptAreDistinct(s: State) {
    forall i, j :: 0 <= i < j < |s.requests| && IsKept(s.requests[i].phase) && IsKept(s.requests[j].phase)
      ==> !SamePair(KeptSignature(s.requests[i]), KeptSignature(s.requests[j]))
  }

  /** Every document comes from a request that has saved it. */
  ghost predicate StoredAreKept(s: State) {
    forall sig :: sig in s.db.signatures ==>
      exists i :: 0 <= i < |s.requests| && IsKept(s.requests[i].phase) && KeptSignature(s.requests[i]) == sig
  }

  /** The counter of a petition, completed by the increments under way and the ones missed. */
  ghost predicate CountsMatch(s: State) {
    forall p :: s.db.Count(p) + Tally(s.requests, IncrementPending(p)) + Tally(s.requests, IncrementMissed(p)) == s.db.Stored(p)
  }

  /** A remembered petition is still what the database holds, and the request meets it. */
  predicate MeetsPetition(r: Request, db: Db) {
    var lookup := LookupOf(r.phase);
    lookup.Found? ==>
      && r.input.petitionId in db.petitions
      && db.petitions[r.input.petitionId].required == lookup.required
      && MissingFields(r.input.fields, lookup.required) == []
  }

  ghost predicate LookupsHold(s: State) {
    forall i :: 0 <= i < |s.requests| ==> MeetsPetition(s.requests[i], s.db)
  }

  /** Whoever was turned away as a duplicate really is one. */
  predicate RejectionJustified(r: Request, db: Db) {
    match r.phase
    case Finished(DuplicateRejected) => db.Taken(r.input.petitionId, r.input.innerNullifier)
    case Finished(LostRace(nullifier)) => db.Taken(r.input.petitionId, nullifier)
    case _ => true
  }

  ghost predicate RejectionsJustified(s: State) {
    forall i :: 0 <= i < |s.requests| ==> RejectionJustified(s.requests[i], s.db)
  }

  ghost predicate Safe(s: State) {
    && SlotsMatch(s)
    && PairsUnique(s.db)
    && KeptAreStored(s) && KeptAreDistinct(s) && StoredAreKept(s)
    && CountsMatch(s)
    && LookupsHold(s)
    && RejectionsJustified(s)
  }

  // ----- the database only grows

  ghost predicate Grows(db: Db, db': Db) {
    && db.signatures <= db'.signatures
    && forall p :: p in db.petitions ==> p in db'.petitions && db'.petitions[p].required == db.petitions[p].required
  }

  lemma StepGrowsDb(s: State, step: Step)
    requires Enabled(s, step)
    ensures Grows(s.db, Apply(s, step).db)
  {
  }

  lemma TakenStaysTaken(db: Db, db': Db, petitionId: string, nullifier: string)
    requires Grows(db, db') && db.Taken(petitionId, nullifier)
    ensures db'.Taken(petitionId, nullifier)
  {
    var i :| 0 <= i < |db.signatures| && db.signatures[i].petitionId == petitionId && db.signatures[i].nullifier == nullifier;
    assert db'.signatures[i] == db.signatures[i];
  }

  // ----- one step

  /** The step inserts a document. */
  predicate Inserts(s: State, step: Step)
    requires Enabled(s, step)
  {
    step.Save? && IsKept(Apply(s, step).requests[step.i].phase)
  }

  /** Only an insert changes the collection, by the moving request's document, whose pair was free. */
  lemma SignaturesChange(s: State, step: Step)
    requires Enabled(s, step)
    ensures var s' := Apply(s, step);
            if Inserts(s, step)
            then !IsKept(s.requests[step.i].phase)
                 && !s.db.Taken(s.requests[step.i].input.petitionId, KeptNullifier(s'.requests[step.i].phase))
                 && s'.requests[step.i].input == s.requests[step.i].input
                 && s'.db.signatures == s.db.signatures + [KeptSignature(s'.requests[step.i])]
            else s'.db.signatures == s.db.signatures
  {
  }

  /** Only the request that moves changes. */
  lemma OthersStay(s: State, step: Step, i: nat)
    requires Enabled(s, step) && i < |s.requests| && (step.Create? || i != step.i)
    ensures |Apply(s, step).requests| == |s.requests| && Apply(s, step).requests[i] == s.requests[i]
  {
    hide Apply, Enabled;
    if step.Create? {
      CreateCountsNothing(s, step, "");
    } else {
      MovesInRange(s, step);
      MoveOnly(s, step);
    }
  }

  lemma MovesInRange(s: State, step: Step)
    requires Enabled(s, step) && !step.Create?
    ensures step.i < |s.requests| && |Apply(s, step).requests| == |s.requests|
  {
  }

  /** Outside inserts a request is saved before a step exactly when it is after it, with the same document. */
  lemma KeptChange(s: State, step: Step, i: nat)
    requires Enabled(s, step) && i < |s.requests|
    requires !Inserts(s, step) || i != step.i
    ensures |Apply(s, step).requests| == |s.requests|
    ensures IsKept(Apply(s, step).requests[i].phase) <==> IsKept(s.requests[i].phase)
    ensures IsKept(s.requests[i].phase) ==> KeptSignature(Apply(s, step).requests[i]) == KeptSignature(s.requests[i])
  {
    hide Apply, Enabled, IsKept, KeptSignature, Inserts;
    if step.Create? || i != step.i {
      OthersStay(s, step, i);
    } else {
      MovesInRange(s, step);
      KeptMoves(s, step);
    }
  }

  lemma KeptMoves(s: State, step: Step)
    requires Enabled(s, step) && !step.Create? && !Inserts(s, step)
    requires |Apply(s, step).requests| == |s.requests|
    ensures var r, before := Apply(s, step).requests[step.i], s.requests[step.i];
            && (IsKept(r.phase) <==> IsKept(before.phase))
            && (IsKept(before.phase) ==> KeptSignature(r) == KeptSignature(before))
  {
    hide MissingFields, Db.Taken, Db.Insert, Db.Increment;
  }

  lemma FreePair(db: Db, sig: Signature)
    requires !db.Taken(sig.petitionId, sig.nullifier)
    ensures forall other :: other in db.signatures ==> !SamePair(other, sig)
  {
    forall other | other in db.signatures
      ensures !SamePair(other, sig)
    {
      var i :| 0 <= i < |db.signatures| && db.signatures[i] == other;
    }
  }

  lemma StepKeepsUnique(s: State, step: Step)
    requires PairsUnique(s.db) && Enabled(s, step)
    ensures PairsUnique(Apply(s, step).db)
  {
    SignaturesChange(s, step);
    hide Apply;
    if Inserts(s, step) {
      FreePair(s.db, KeptSignature(Apply(s, step).requests[step.i]));
    }
  }

  lemma StepKeepsStored(s: State, step: Step)
    requires KeptAreStored(s) && Enabled(s, step)
    ensures KeptAreStored(Apply(s, step))
  {
    var s' := Apply(s, step);
    SignaturesChange(s, step);
    forall i | 0 <= i < |s'.requests| && IsKept(s'.requests[i].phase)
      ensures KeptSignature(s'.requests[i]) in s'.db.signatures
    {
      if Inserts(s, step) && i == step.i {
      } else {
        KeptChange(s, step, i);
      }
    }
  }

  lemma StepKeepsDistinct(s: State, step: Step)
    requires KeptAreStored(s) && KeptAreDistinct(s) && Enabled(s, step)
    ensures KeptAreDistinct(Apply(s, step))
  {
    var s' := Apply(s, step);
    SignaturesChange(s, step);
    if Inserts(s, step) {
      FreePair(s.db, KeptSignature(s'.requests[step.i]));
    }
    forall i, j | 0 <= i < j < |s'.requests| && IsKept(s'.requests[i].phase) && IsKept(s'.requests[j].phase)
      ensures !SamePair(KeptSignature(s'.requests[i]), KeptSignature(s'.requests[j]))
    {
      KeptPairDistinct(s, step, i, j);
    }
  }

  lemma KeptPairDistinct(s: State, step: Step, i: nat, j: nat)
    requires KeptAreStored(s) && KeptAreDistinct(s) && Enabled(s, step)
    requires i < j < |Apply(s, step).requests|
    requires IsKept(Apply(s, step).requests[i].phase) && IsKept(Apply(s, step).requests[j].phase)
    requires Inserts(s, step) ==>
      forall other :: other in s.db.signatures ==> !SamePair(other, KeptSignature(Apply(s, step).requests[step.i]))
    ensures !SamePair(KeptSignature(Apply(s, step).requests[i]), KeptSignature(Apply(s, step).requests[j]))
  {
    SameRequests(s, step);
    if !Inserts(s, step) || i != step.i {
      KeptChange(s, step, i);
    }
    if !Inserts(s, step) || j != step.i {
      KeptChange(s, step, j);
    }
    hide Apply;
  }

  lemma SameRequests(s: State, step: Step)
    requires Enabled(s, step)
    ensures |Apply(s, step).requests| == |s.requests|
  {
  }

  lemma StepKeepsSource(s: State, step: Step)
    requires StoredAreKept(s) && Enabled(s, step)
    ensures StoredAreKept(Apply(s, step))
  {
    var s' := Apply(s, step);
    SignaturesChange(s, step);
    SameRequests(s, step);
    forall sig | sig in s'.db.signatures
      ensures exists i :: 0 <= i < |s'.requests| && IsKept(s'.requests[i].phase) && KeptSignature(s'.requests[i]) == sig
    {
      if sig in s.db.signatures {
        var i :| 0 <= i < |s.requests| && IsKept(s.requests[i].phase) && KeptSignature(s.requests[i]) == sig;
        KeptChange(s, step, i);
      }
    }
  }

  lemma StepKeepsCounts(s: State, step: Step)
    requires CountsMatch(s) && Enabled(s, step)
    ensures CountsMatch(Apply(s, step))
  {
    forall p
      ensures var s' := Apply(s, step);
              s'.db.Count(p) + Tally(s'.requests, IncrementPending(p)) + Tally(s'.requests, IncrementMissed(p)) == s'.db.Stored(p)
    {
      StepKeepsCount(s, step, p);
    }
  }

  lemma CreateCountsNothing(s: State, step: Step, p: string)
    requires step.Create?
    ensures Apply(s, step).requests == s.requests && Apply(s, step).db.Count(p) == s.db.Count(p)
    ensures Apply(s, step).db.signatures == s.db.signatures
  {
  }

  lemma StepKeepsCount(s: State, step: Step, p: string)
    requires CountsMatch(s) && Enabled(s, step)
    ensures var s' := Apply(s, step);
            s'.db.Count(p) + Tally(s'.requests, IncrementPending(p)) + Tally(s'.requests, IncrementMissed(p)) == s'.db.Stored(p)
  {
    hide Apply, Matches, IsKept;
    assert s.db.Count(p) + Tally(s.requests, IncrementPending(p)) + Tally(s.requests, IncrementMissed(p)) == s.db.Stored(p);
    SignaturesChange(s, step);
    if step.Create? {
      CreateCountsNothing(s, step, p);
    } else {
      SameRequests(s, step);
      var r := Apply(s, step).requests[step.i];
      MoveOnly(s, step);
      RequestBalance(s, step, p);
      TallyUpdate(s.requests, step.i, r, IncrementPending(p));
      TallyUpdate(s.requests, step.i, r, IncrementMissed(p));
      if Inserts(s, step) {
        StoredAfterInsert(s.db, KeptSignature(r), p);
      }
    }
  }

  /** How many increments of the petition a request still owes, or will never make. */
  function Owed(r: Request, p: string): nat {
    AsNat(Matches(r, IncrementPending(p))) + AsNat(Matches(r, IncrementMissed(p)))
  }

  /** What a step adds to the collection it adds to the counter or to what its request owes. */
  lemma RequestBalance(s: State, step: Step, p: string)
    requires Enabled(s, step) && !step.Create?
    ensures var s' := Apply(s, step);
            s'.db.Count(p) + Owed(s'.requests[step.i], p)
            == s.db.Count(p) + Owed(s.requests[step.i], p)
               + AsNat(Inserts(s, step) && KeptSignature(s'.requests[step.i]).petitionId == p)
  {
  }

  lemma StepKeepsLookups(s: State, step: Step)
    requires LookupsHold(s) && Enabled(s, step)
    ensures LookupsHold(Apply(s, step))
  {
    StepGrowsDb(s, step);
    SameRequests(s, step);
    forall i | 0 <= i < |s.requests|
      ensures MeetsPetition(Apply(s, step).requests[i], Apply(s, step).db)
    {
      LookupStays(s, step, i);
    }
  }

  lemma LookupStays(s: State, step: Step, i: nat)
    requires LookupsHold(s) && Enabled(s, step) && i < |s.requests| && |Apply(s, step).requests| == |s.requests|
    requires Grows(s.db, Apply(s, step).db)
    ensures MeetsPetition(Apply(s, step).requests[i], Apply(s, step).db)
  {
    var r := Apply(s, step).requests[i];
    LookupSource(s, step, i);
    hide Apply, Enabled;
    assert MeetsPetition(s.requests[i], s.db);
  }

  /** A request keeps its lookup, forgets it, or gets it from the database as it is now. */
  lemma LookupSource(s: State, step: Step, i: nat)
    requires Enabled(s, step) && i < |s.requests| && |Apply(s, step).requests| == |s.requests|
    ensures var r, before := Apply(s, step).requests[i], s.requests[i];
            && r.input == before.input
            && (LookupOf(r.phase) == LookupOf(before.phase) || !LookupOf(r.phase).Found? || MeetsPetition(r, s.db))
  {
    hide Apply, Enabled, MeetsPetition, LookupOf;
    if step.Create? || i != step.i {
      OthersStay(s, step, i);
    } else {
      MovesInRange(s, step);
      MoveOnly(s, step);
      LookupMoves(s, step);
    }
  }

  lemma LookupMoves(s: State, step: Step)
    requires Enabled(s, step) && !step.Create? && |Apply(s, step).requests| == |s.requests|
    ensures var r, before := Apply(s, step).requests[step.i], s.requests[step.i];
            LookupOf(r.phase) == LookupOf(before.phase) || !LookupOf(r.phase).Found? || MeetsPetition(r, s.db)
  {
    hide MissingFields, Db.Taken, Db.Insert, Db.Increment;
  }

  lemma StepKeepsRejections(s: State, step: Step)
    requires RejectionsJustified(s) && Enabled(s, step)
    ensures RejectionsJustified(Apply(s, step))
  {
    var s' := Apply(s, step);
    StepGrowsDb(s, step);
    forall i | 0 <= i < |s'.requests|
      ensures RejectionJustified(s'.requests[i], s'.db)
    {
      RejectionStays(s, step, i);
    }
  }

  /** A rejection is made, or was already there, because the pair is taken. */
  lemma RejectionSource(s: State, step: Step, i: nat)
    requires Enabled(s, step) && i < |Apply(s, step).requests| && |Apply(s, step).requests| == |s.requests|
    requires RejectionsJustified(s)
    ensures RejectionJustified(Apply(s, step).requests[i], s.db)
  {
    hide MissingFields, Db.Taken, Db.Insert, Db.Increment, Db.Create;
    assert RejectionJustified(s.requests[i], s.db);
  }

  lemma RejectionStays(s: State, step: Step, i: nat)
    requires Enabled(s, step) && i < |Apply(s, step).requests| && Grows(s.db, Apply(s, step).db)
    requires RejectionsJustified(s)
    ensures RejectionJustified(Apply(s, step).requests[i], Apply(s, step).db)
  {
    hide MissingFields, Db.Taken, Db.Insert, Db.Increment, Db.Create, Grows;
    var r := Apply(s, step).requests[i];
    SameRequests(s, step);
    RejectionSource(s, step, i);
    match r.phase
    case Finished(DuplicateRejected) =>
      TakenStaysTaken(s.db, Apply(s, step).db, r.input.petitionId, r.input.innerNullifier);
    case Finished(LostRace(nullifier)) =>
      TakenStaysTaken(s.db, Apply(s, step).db, r.input.petitionId, nullifier);
    case _ =>
  }

  lemma StepIsSafe(s: State, step: Step)
    requires Safe(s) && Enabled(s, step)
    ensures Safe(Apply(s, step))
  {
    hide Apply, SlotsMatch, PairsUnique, KeptAreStored, KeptAreDistinct, StoredAreKept, CountsMatch, LookupsHold,
         RejectionsJustified;
    StepKeepsSlots(s, step);
    StepKeepsUnique(s, step);
    StepKeepsStored(s, step);
    StepKeepsDistinct(s, step);
    StepKeepsSource(s, step);
    StepKeepsCounts(s, step);
    StepKeepsLookups(s, step);
    StepKeepsRejections(s, step);
  }

  lemma InitialIsSafe(s: State)
    requires Initial(s)
    ensures Safe(s)
  {
    TallyZero(s.requests, HasSlot);
    TallyZero(s.requests, IsCounted);
    forall p
      ensures Tally(s.requests, IncrementPending(p)) == 0 && Tally(s.requests, IncrementMissed(p)) == 0
    {
      TallyZero(s.requests, IncrementPending(p));
      TallyZero(s.requests, IncrementMissed(p));
    }
  }

  /** Every state of every run is safe. */
  lemma {:induction false} RunIsSafe(states: seq<State>, steps: seq<Step>, k: nat)
    requires IsRun(states, steps) && k < |states|
    ensures Safe(states[k])
    decreases k
  {
    hide Safe, Apply, Enabled;
    if k == 0 {
      InitialIsSafe(states[0]);
    } else {
      RunIsSafe(states, steps, k - 1);
      StepIsSafe(states[k - 1], steps[k - 1]);
    }
  }

  // ----- consequences

  /** A job counter that is never negative, and exactly as far off as the unfinished pairs of operations. */
  lemma InflightIsExact(s: State)
    requires Safe(s)
    ensures s.slots <= s.capacity
    ensures s.inflight == s.slots - Tally(s.requests, IsHolding) + Tally(s.requests, IsPopped) >= 0
  {
    CounterOffsets(s.requests);
  }

  /** The counter never exceeds the stored signatures and equals them when no increment is open or missed. */
  lemma CountIsBounded(s: State, p: string)
    requires Safe(s)
    ensures s.db.Count(p) <= s.db.Stored(p)
    ensures s.db.Count(p) == s.db.Stored(p)
       <==> forall i :: 0 <= i < |s.requests| ==>
              !Matches(s.requests[i], IncrementPending(p)) && !Matches(s.requests[i], IncrementMissed(p))
  {
    assert s.db.Count(p) + Tally(s.requests, IncrementPending(p)) + Tally(s.requests, IncrementMissed(p)) == s.db.Stored(p);
    if forall i :: 0 <= i < |s.requests| ==>
         !Matches(s.requests[i], IncrementPending(p)) && !Matches(s.requests[i], IncrementMissed(p)) {
      TallyZero(s.requests, IncrementPending(p));
      TallyZero(s.requests, IncrementMissed(p));
    }
    forall i | 0 <= i < |s.requests| && s.db.Count(p) == s.db.Stored(p)
      ensures !Matches(s.requests[i], IncrementPending(p)) && !Matches(s.requests[i], IncrementMissed(p))
    {
      if Matches(s.requests[i], IncrementPending(p)) {
        TallyPositive(s.requests, i, IncrementPending(p));
      }
      if Matches(s.requests[i], IncrementMissed(p)) {
        TallyPositive(s.requests, i, IncrementMissed(p));
      }
    }
  }

  /** Whatever a request saved after finding its petition discloses all that the petition requires. */
  lemma SavedFieldsCoverPetition(s: State, i: nat)
    requires Safe(s) && i < |s.requests| && IsKept(s.requests[i].phase) && LookupOf(s.requests[i].phase).Found?
    ensures var sig := KeptSignature(s.requests[i]);
            && sig in s.db.signatures && sig.petitionId in s.db.petitions
            && forall f :: f in s.db.petitions[sig.petitionId].required ==> f in sig.fields
  {
    assert MeetsPetition(s.requests[i], s.db);
  }

  ghost predicate AllFinished(s: State) {
    forall i :: 0 <= i < |s.requests| ==> s.requests[i].phase.Finished?
  }

  /** When every request has ended, all slots are free, and only missed increments separate the counts. */
  lemma FinishedIsClean(s: State, p: string)
    requires Safe(s) && AllFinished(s)
    ensures s.slots == 0 && s.inflight == 0
    ensures s.db.Count(p) + Tally(s.requests, IncrementMissed(p)) == s.db.Stored(p)
  {
    TallyZero(s.requests, HasSlot);
    TallyZero(s.requests, IsCounted);
    TallyZero(s.requests, IncrementPending(p));
    assert s.db.Count(p) + Tally(s.requests, IncrementPending(p)) + Tally(s.requests, IncrementMissed(p)) == s.db.Stored(p);
  }

  // ----- progress

  /** Unless all requests have ended, one of them can move: waiting requests never starve each other. */
  lemma NoDeadlock(s: State) returns (step: Step)
    requires Safe(s) && !AllFinished(s)
    ensures !step.Create? && !step.Refuse? && Enabled(s, step)
  {
    var i :| 0 <= i < |s.requests| && !s.requests[i].phase.Finished?;
    if s.requests[i].phase.Waiting? && s.slots == s.capacity {
      i := TallyWitness(s.requests, HasSlot);
    }
    match s.requests[i].phase
    case Received => step := Look(i, false);
    case LookedUp(_) => step := PreCheck(i, false);
    case Waiting(_) => step := Push(i);
    case Holding(_) => step := CountIn(i);
    case Proving(_) => step := Pop(i, None);
    case Popped(_, _) => step := CountOut(i);
    case Returned(_, _) => step := Save(i, Healthy);
    case Inserted(_, _) => step := Increase(i, Healthy);
  }

  function Rank(phase: Phase): nat {
    match phase
    case Received => 8
    case LookedUp(_) => 7
    case Waiting(_) => 6
    case Holding(_) => 5
    case Proving(_) => 4
    case Popped(_, _) => 3
    case Returned(_, _) => 2
    case Inserted(_, _) => 1
    case Finished(_) => 0
  }

  function TotalRank(requests: seq<Request>): nat {
    if requests == [] then 0 else Rank(requests[0].phase) + TotalRank(requests[1..])
  }

  lemma {:induction false} RankUpdate(requests: seq<Request>, i: nat, r: Request)
    requires i < |requests|
    ensures TotalRank(requests[i := r]) + Rank(requests[i].phase) == TotalRank(requests) + Rank(r.phase)
  {
    if i == 0 {
      assert requests[0 := r][1..] == requests[1..];
    } else {
      assert requests[i := r][1..] == requests[1..][i - 1 := r];
      RankUpdate(requests[1..], i - 1, r);
    }
  }

  lemma RankDrops(s: State, step: Step)
    requires Enabled(s, step) && !step.Create? && |Apply(s, step).requests| == |s.requests|
    ensures Rank(Apply(s, step).requests[step.i].phase) < Rank(s.requests[step.i].phase)
  {
    hide MissingFields, Db.Taken, Db.Insert, Db.Increment;
  }

  /** Every step of a request brings it closer to its end, so a run is at most eight steps a request long. */
  lemma StepsRunOut(s: State, step: Step)
    requires Enabled(s, step) && !step.Create?
    ensures TotalRank(Apply(s, step).requests) < TotalRank(s.requests)
  {
    assert step.i < |s.requests|;
    hide Apply, Enabled, Rank, TotalRank;
    SameRequests(s, step);
    MoveOnly(s, step);
    RankDrops(s, step);
    RankUpdate(s.requests, step.i, Apply(s, step).requests[step.i]);
  }

  function Moves(steps: seq<Step>): nat {
    if steps == [] then 0 else Moves(steps[..|steps| - 1]) + AsNat(!steps[|steps| - 1].Create?)
  }

  lemma {:induction false} InitialRank(requests: seq<Request>)
    requires forall i :: 0 <= i < |requests| ==> requests[i].phase == Received
    ensures TotalRank(requests) == 8 * |requests|
  {
    if requests != [] {
      InitialRank(requests[1..]);
    }
  }

  lemma {:induction false} RunIsBounded(states: seq<State>, steps: seq<Step>, k: nat)
    requires IsRun(states, steps) && k < |states|
    ensures Moves(steps[..k]) + TotalRank(states[k].requests) <= 8 * |states[0].requests|
    decreases k
  {
    if k == 0 {
      InitialRank(states[0].requests);
    } else {
      hide Apply, TotalRank;
      RunIsBounded(states, steps, k - 1);
      assert steps[..k][..k - 1] == steps[..k - 1];
      if !steps[k - 1].Create? {
        StepsRunOut(states[k - 1], steps[k - 1]);
      } else {
        CreateKeepsRequests(states[k - 1], steps[k - 1]);
      }
    }
  }

  lemma CreateKeepsRequests(s: State, step: Step)
    requires step.Create? && Enabled(s, step)
    ensures Apply(s, step).requests == s.requests
  {
  }
}
