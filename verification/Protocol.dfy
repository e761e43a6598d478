/**
 * Aggregate requests as a transition system.  Any number of requests go through
 * `handleAggregateProofs` at the same time; every database command, every push and pop of a slot
 * and every change of the inflight counter is a step of its own.
 */
module Protocol {
  import opened Wrappers
  import opened Store
  import opened Disclosure

  /** What a request brings along; the empty string stands for an absent identifier. */
  datatype Input = Input(petitionId: string, fields: seq<string>, innerNullifier: string)

  /** What the petition lookup gave. */
  datatype Lookup = Skipped | LookupFailed | NotFound | Found(required: seq<string>)

  datatype Ending =
    | FieldsRejected
    | DuplicateRejected
    | Refused                                                       // cancelled or invalid
    | NotProved
    | NothingToSave
    | LostRace(nullifier: string)
    | SaveFailed
    | Kept(lookup: Lookup, nullifier: string, counted: bool)         // stored

  datatype Phase =
    | Received
    | LookedUp(lookup: Lookup)
    | Waiting(lookup: Lookup)
    | Holding(lookup: Lookup)                                       // slot pushed, not yet counted
    | Proving(lookup: Lookup)                                       // slot pushed and counted
    | Popped(lookup: Lookup, result: Option<string>)                // slot popped, still counted
    | Returned(lookup: Lookup, result: Option<string>)              // the proof's outer nullifier, if any
    | Inserted(lookup: Lookup, nullifier: string)                   // stored, increment pending
    | Finished(ending: Ending)

  datatype Request = Request(input: Input, phase: Phase)

  datatype State = State(
    hasStorage: bool,
    capacity: nat,
    slots: nat,
    inflight: int,
    db: Db,
    requests: seq<Request>)
  {
    function Input(i: nat): Input
      requires i < |requests|
    {
      requests[i].input
    }

    function Phase(i: nat): Phase
      requires i < |requests|
    {
      requests[i].phase
    }

    function Goto(i: nat, phase: Phase): State
      requires i < |requests|
    {
      this.(requests := requests[i := requests[i].(phase := phase)])
    }
  }

  /** `i` is the request that moves; the other fields are what the environment decides. */
  datatype Step =
    | Look(i: nat, fails: bool)
    | PreCheck(i: nat, fails: bool)
    | Refuse(i: nat)
    | Push(i: nat)
    | CountIn(i: nat)
    | Pop(i: nat, result: Option<string>)
    | CountOut(i: nat)
    | Save(i: nat, fault: Fault)
    | Increase(i: nat, fault: Fault)
    | Create(petitionId: string, required: seq<string>)

  predicate Enabled(s: State, step: Step) {
    if step.Create? then true
    else if step.i >= |s.requests| then false
    else
      var phase := s.Phase(step.i);
      match step
      case Look(_, _) => phase.Received?
      case PreCheck(_, _) => phase.LookedUp?
      case Refuse(_) => phase.Waiting?
      case Push(_) => phase.Waiting? && s.slots < s.capacity
      case CountIn(_) => phase.Holding?
      case Pop(_, _) => phase.Proving?
      case CountOut(_) => phase.Popped?
      case Save(_, _) => phase.Returned?
      case Increase(_, _) => phase.Inserted?
      case Create(_, _) => true
  }

  function LookStep(s: State, i: nat, fails: bool): Phase
    requires i < |s.requests|
  {
    var input := s.Input(i);
    if !s.hasStorage || input.petitionId == "" then Waiting(Skipped)
    else if fails then LookedUp(LookupFailed)
    else if input.petitionId !in s.db.petitions then LookedUp(NotFound)
    else
      var required := s.db.petitions[input.petitionId].required;
      if MissingFields(input.fields, required) == [] then LookedUp(Found(required)) else Finished(FieldsRejected)
  }

  function PreCheckStep(s: State, i: nat, fails: bool): Phase
    requires i < |s.requests| && s.Phase(i).LookedUp?
  {
    var input := s.Input(i);
    if input.innerNullifier != "" && !fails && s.db.Taken(input.petitionId, input.innerNullifier) then
      Finished(DuplicateRejected)
    else Waiting(s.Phase(i).lookup)
  }

  /** The insert, or the decision that there is nothing to insert. */
  function SaveStep(s: State, i: nat, fault: Fault): State
    requires i < |s.requests| && s.Phase(i).Returned?
  {
    var input := s.Input(i);
    var lookup := s.Phase(i).lookup;
    match s.Phase(i).result
    case None => s.Goto(i, Finished(NotProved))
    case Some(nullifier) =>
      if !s.hasStorage || input.petitionId == "" || nullifier == "" then s.Goto(i, Finished(NothingToSave))
      else if fault == NotApplied then s.Goto(i, Finished(SaveFailed))
      else if s.db.Taken(input.petitionId, nullifier) then
        s.Goto(i, Finished(if fault == Healthy then LostRace(nullifier) else SaveFailed))
      else
        var stored := s.(db := s.db.Insert(Signature(input.petitionId, nullifier, input.fields)));
        stored.Goto(i, if fault == Healthy then Inserted(lookup, nullifier) else Finished(Kept(lookup, nullifier, false)))
  }

  function IncreaseStep(s: State, i: nat, fault: Fault): State
    requires i < |s.requests| && s.Phase(i).Inserted?
  {
    var petitionId := s.Input(i).petitionId;
    var counted := fault != NotApplied && petitionId in s.db.petitions;
    var s' := if fault == NotApplied then s else s.(db := s.db.Increment(petitionId));
    s'.Goto(i, Finished(Kept(s.Phase(i).lookup, s.Phase(i).nullifier, counted)))
  }

  /** `release` takes its default branch when the channel is empty. */
  function PopStep(s: State, i: nat, result: Option<string>): State
    requires i < |s.requests| && s.Phase(i).Proving?
  {
    var lookup := s.Phase(i).lookup;
    if s.slots > 0 then s.(slots := s.slots - 1).Goto(i, Popped(lookup, result))
    else s.Goto(i, Returned(lookup, result))
  }

  function Apply(s: State, step: Step): State
    requires Enabled(s, step)
  {
    match step
    case Look(i, fails) => s.Goto(i, LookStep(s, i, fails))
    case PreCheck(i, fails) => s.Goto(i, PreCheckStep(s, i, fails))
    case Refuse(i) => s.Goto(i, Finished(Refused))
    case Push(i) => s.(slots := s.slots + 1).Goto(i, Holding(s.Phase(i).lookup))
    case CountIn(i) => s.(inflight := s.inflight + 1).Goto(i, Proving(s.Phase(i).lookup))
    case Pop(i, result) => PopStep(s, i, result)
    case CountOut(i) => s.(inflight := s.inflight - 1).Goto(i, Returned(s.Phase(i).lookup, s.Phase(i).result))
    case Save(i, fault) => SaveStep(s, i, fault)
    case Increase(i, fault) => IncreaseStep(s, i, fault)
    case Create(petitionId, required) => s.(db := s.db.Create(petitionId, required))
  }

  /** A fresh service and an empty database, with any requests already received. */
  ghost predicate Initial(s: State) {
    && s.capacity > 0 && s.slots == 0 && s.inflight == 0
    && s.db == Db(map[], [])
    && forall i :: 0 <= i < |s.requests| ==> s.requests[i].phase == Received
  }

  ghost predicate IsRun(states: seq<State>, steps: seq<Step>) {
    && |states| == |steps| + 1
    && Initial(states[0])
    && forall k :: 0 <= k < |steps| ==> Enabled(states[k], steps[k]) && states[k + 1] == Apply(states[k], steps[k])
  }

  // ----- counting requests

  datatype Kind =
    | HasSlot
    | IsCounted
    | IsHolding
    | IsPopped
    | IncrementPending(petitionId: string)
    | IncrementMissed(petitionId: string)

  predicate Matches(r: Request, kind: Kind) {
    match kind
    case HasSlot => r.phase.Holding? || r.phase.Proving?
    case IsCounted => r.phase.Proving? || r.phase.Popped?
    case IsHolding => r.phase.Holding?
    case IsPopped => r.phase.Popped?
    case IncrementPending(petitionId) => r.phase.Inserted? && r.input.petitionId == petitionId
    case IncrementMissed(petitionId) =>
      r.phase.Finished? && r.phase.ending.Kept? && !r.phase.ending.counted && r.input.petitionId == petitionId
  }

  function Tally(requests: seq<Request>, kind: Kind): nat {
    if requests == [] then 0 else AsNat(Matches(requests[0], kind)) + Tally(requests[1..], kind)
  }

  lemma {:induction false} TallyUpdate(requests: seq<Request>, i: nat, r: Request, kind: Kind)
    requires i < |requests|
    ensures Tally(requests[i := r], kind) + AsNat(Matches(requests[i], kind))
         == Tally(requests, kind) + AsNat(Matches(r, kind))
  {
    if i == 0 {
      assert requests[0 := r][1..] == requests[1..];
    } else {
      assert requests[i := r][1..] == requests[1..][i - 1 := r];
      TallyUpdate(requests[1..], i - 1, r, kind);
    }
  }

  lemma {:induction false} TallyPositive(requests: seq<Request>, i: nat, kind: Kind)
    requires i < |requests| && Matches(requests[i], kind)
    ensures Tally(requests, kind) > 0
  {
    if i > 0 {
      TallyPositive(requests[1..], i - 1, kind);
    }
  }

  lemma {:induction false} TallyWitness(requests: seq<Request>, kind: Kind) returns (i: nat)
    requires Tally(requests, kind) > 0
    ensures i < |requests| && Matches(requests[i], kind)
  {
    if Matches(requests[0], kind) {
      i := 0;
    } else {
      var j := TallyWitness(requests[1..], kind);
      i := j + 1;
    }
  }

  lemma {:induction false} TallyZero(requests: seq<Request>, kind: Kind)
    requires forall i :: 0 <= i < |requests| ==> !Matches(requests[i], kind)
    ensures Tally(requests, kind) == 0
  {
    if requests != [] {
      TallyZero(requests[1..], kind);
    }
  }

  // ----- slots

  ghost predicate SlotsMatch(s: State) {
    && 0 < s.capacity && s.slots <= s.capacity
    && s.slots == Tally(s.requests, HasSlot)
    && s.inflight == Tally(s.requests, IsCounted)
  }

  /** The counter trails the slots by the jobs between the two operations of a push or of a pop. */
  lemma {:induction false} CounterOffsets(requests: seq<Request>)
    ensures Tally(requests, IsCounted) + Tally(requests, IsHolding) == Tally(requests, HasSlot) + Tally(requests, IsPopped)
  {
    if requests != [] {
      CounterOffsets(requests[1..]);
    }
  }

  /** A job that releases finds a slot to pop: the default branch of `release` is never taken. */
  lemma ReleaseFindsSlot(s: State, i: nat)
    requires SlotsMatch(s) && i < |s.requests| && s.Phase(i).Proving?
    ensures s.slots > 0
  {
    TallyPositive(s.requests, i, HasSlot);
  }

  /** What a step adds to the slots, and to the counter, it adds to the tally of its request. */
  lemma SlotBalance(s: State, step: Step)
    requires Enabled(s, step) && !step.Create? && (step.Pop? ==> s.slots > 0) && s.slots <= s.capacity
    ensures var s' := Apply(s, step);
            && |s'.requests| == |s.requests| && s'.slots <= s'.capacity
            && s'.slots + AsNat(Matches(s.requests[step.i], HasSlot))
               == s.slots + AsNat(Matches(s'.requests[step.i], HasSlot))
            && s'.inflight + AsNat(Matches(s.requests[step.i], IsCounted))
               == s.inflight + AsNat(Matches(s'.requests[step.i], IsCounted))
  {
    hide MissingFields, Db.Taken, Db.Insert, Db.Increment;
  }

  lemma StepKeepsSlots(s: State, step: Step)
    requires SlotsMatch(s) && Enabled(s, step)
    ensures SlotsMatch(Apply(s, step))
  {
    if !step.Create? {
      if step.Pop? {
        ReleaseFindsSlot(s, step.i);
      }
      SlotBalance(s, step);
      MoveOnly(s, step);
      hide Apply, Matches;
      var s' := Apply(s, step);
      TallyUpdate(s.requests, step.i, s'.requests[step.i], HasSlot);
      TallyUpdate(s.requests, step.i, s'.requests[step.i], IsCounted);
    }
  }

  /** A step changes the phase of one request and nothing else about any of them. */
  lemma MoveOnly(s: State, step: Step)
    requires Enabled(s, step) && !step.Create?
    ensures var s' := Apply(s, step);
            && s'.requests == s.requests[step.i := s'.requests[step.i]]
            && s'.requests[step.i].input == s.requests[step.i].input
            && s'.hasStorage == s.hasStorage && s'.capacity == s.capacity
  {
  }
}
