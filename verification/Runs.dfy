/** Runs of the transition system, built step by step. */
module Runs {
  import opened Wrappers
  import opened Store
  import opened Protocol
  import Answers

  /** The state after `steps`, if each of them is enabled in its turn. */
  function Replay(s: State, steps: seq<Step>): Option<State> {
    if steps == [] then Some(s)
    else
      match Replay(s, steps[..|steps| - 1])
      case None => None
      case Some(t) =>
        var step := steps[|steps| - 1];
        if Enabled(t, step) then Some(Apply(t, step)) else None
  }

  lemma ReplayStep(s: State, steps: seq<Step>, t: State, step: Step)
    requires Replay(s, steps) == Some(t) && Enabled(t, step)
    ensures Replay(s, steps + [step]) == Some(Apply(t, step))
  {
    hide Enabled, Apply;
    assert (steps + [step])[..|steps|] == steps;
  }

  lemma RunExtends(states: seq<State>, steps: seq<Step>, step: Step)
    requires IsRun(states, steps) && Enabled(states[|steps|], step)
    ensures IsRun(states + [Apply(states[|steps|], step)], steps + [step])
  {
    hide Enabled, Apply, Initial;
    var longer, all := states + [Apply(states[|steps|], step)], steps + [step];
    forall k | 0 <= k < |all|
      ensures Enabled(longer[k], all[k]) && longer[k + 1] == Apply(longer[k], all[k])
    {
      if k < |steps| {
        assert longer[k] == states[k] && longer[k + 1] == states[k + 1] && all[k] == steps[k];
      }
    }
  }

  /** What is replayed from an initial state is a run. */
  lemma {:induction false} ReplayIsRun(s: State, steps: seq<Step>) returns (states: seq<State>)
    requires Initial(s) && Replay(s, steps).Some?
    ensures IsRun(states, steps) && states[0] == s && Replay(s, steps) == Some(states[|steps|])
  {
    hide Enabled, Apply, Initial, IsRun;
    if steps == [] {
      states := [s];
      EmptyRun(s);
    } else {
      var k := |steps| - 1;
      var before := ReplayIsRun(s, steps[..k]);
      RunLength(before, steps[..k]);
      states := before + [Replay(s, steps).value];
      RunExtends(before, steps[..k], steps[k]);
      assert steps[..k] + [steps[k]] == steps;
    }
  }

  lemma EmptyRun(s: State)
    requires Initial(s)
    ensures IsRun([s], [])
  {
  }

  lemma RunLength(states: seq<State>, steps: seq<Step>)
    requires IsRun(states, steps)
    ensures |states| == |steps| + 1
  {
  }

  // ----- single steps of one request

  lemma MoveTwice(s: State, i: nat, first: Phase, second: Phase)
    requires i < |s.requests|
    ensures s.Goto(i, first).Goto(i, second) == s.Goto(i, second)
  {
    assert s.requests[i := s.requests[i].(phase := first)][i := s.requests[i].(phase := second)]
        == s.requests[i := s.requests[i].(phase := second)];
  }

  lemma TakeSlot(s: State, i: nat, lookup: Lookup)
    requires i < |s.requests| && s.Phase(i) == Waiting(lookup) && s.slots < s.capacity
    ensures Enabled(s, Push(i)) && Enabled(Apply(s, Push(i)), CountIn(i))
    ensures Apply(Apply(s, Push(i)), CountIn(i))
         == s.(slots := s.slots + 1, inflight := s.inflight + 1).Goto(i, Proving(lookup))
  {
    MoveTwice(s.(slots := s.slots + 1, inflight := s.inflight + 1), i, Holding(lookup), Proving(lookup));
  }

  lemma GiveSlot(s: State, i: nat, lookup: Lookup, result: Option<string>)
    requires i < |s.requests| && s.Phase(i) == Proving(lookup) && s.slots > 0
    ensures Enabled(s, Pop(i, result)) && Enabled(Apply(s, Pop(i, result)), CountOut(i))
    ensures Apply(Apply(s, Pop(i, result)), CountOut(i))
         == s.(slots := s.slots - 1, inflight := s.inflight - 1).Goto(i, Returned(lookup, result))
  {
    MoveTwice(s.(slots := s.slots - 1, inflight := s.inflight - 1), i, Popped(lookup, result), Returned(lookup, result));
  }

  lemma TwoSteps(s: State, steps: seq<Step>, t: State, first: Step, second: Step)
    requires Replay(s, steps) == Some(t) && Enabled(t, first) && Enabled(Apply(t, first), second)
    ensures Replay(s, steps + [first, second]) == Some(Apply(Apply(t, first), second))
  {
    hide Enabled, Apply;
    ReplayStep(s, steps, t, first);
    ReplayStep(s, steps + [first], Apply(t, first), second);
    assert steps + [first] + [second] == steps + [first, second];
  }

  function ProvingSteps(i: nat, result: Option<string>): seq<Step> {
    [Push(i), CountIn(i)] + [Pop(i, result), CountOut(i)]
  }

  /** Taking a slot, counting it, proving, giving the slot back and discounting it: four steps. */
  lemma ProvingReplays(s: State, steps: seq<Step>, t: State, i: nat, lookup: Lookup, result: Option<string>)
    requires Replay(s, steps) == Some(t)
    requires i < |t.requests| && t.Phase(i) == Waiting(lookup) && t.slots < t.capacity
    ensures Replay(s, steps + ProvingSteps(i, result)) == Some(t.Goto(i, Returned(lookup, result)))
  {
    hide Enabled, Apply, Replay;
    TakeSlot(t, i, lookup);
    TwoSteps(s, steps, t, Push(i), CountIn(i));
    var proving := t.(slots := t.slots + 1, inflight := t.inflight + 1).Goto(i, Proving(lookup));
    GiveSlot(proving, i, lookup, result);
    TwoSteps(s, steps + [Push(i), CountIn(i)], proving, Pop(i, result), CountOut(i));
    MoveTwice(t, i, Proving(lookup), Returned(lookup, result));
    assert steps + [Push(i), CountIn(i)] + [Pop(i, result), CountOut(i)] == steps + ProvingSteps(i, result);
  }

  // ----- a lost race

  /** A request without a petition document passes both checks, as long as nothing is stored. */
  lemma ArriveAtQueue(s: State, steps: seq<Step>, t: State, i: nat)
    requires Replay(s, steps) == Some(t)
    requires i < |t.requests| && t.Phase(i).Received? && t.hasStorage && t.db == Db(map[], [])
    requires t.Input(i).petitionId != ""
    ensures Replay(s, steps + [Look(i, false), PreCheck(i, false)]) == Some(t.Goto(i, Waiting(NotFound)))
  {
    TwoSteps(s, steps, t, Look(i, false), PreCheck(i, false));
    MoveTwice(t, i, LookedUp(NotFound), Waiting(NotFound));
  }

  lemma ArriveProved(s: State, steps: seq<Step>, t: State, i: nat, nullifier: string) returns (more: seq<Step>)
    requires Replay(s, steps) == Some(t)
    requires i < |t.requests| && t.Phase(i).Received? && t.hasStorage && t.db == Db(map[], [])
    requires t.Input(i).petitionId != "" && t.slots < t.capacity
    ensures Replay(s, more) == Some(t.Goto(i, Returned(NotFound, Some(nullifier))))
  {
    hide Replay;
    ArriveAtQueue(s, steps, t, i);
    var queued := steps + [Look(i, false), PreCheck(i, false)];
    ProvingReplays(s, queued, t.Goto(i, Waiting(NotFound)), i, NotFound, Some(nullifier));
    MoveTwice(t, i, Waiting(NotFound), Returned(NotFound, Some(nullifier)));
    more := queued + ProvingSteps(i, Some(nullifier));
  }

  function TwoRequests(petitionId: string, fields: seq<string>, innerNullifier: string): State {
    var request := Request(Input(petitionId, fields, innerNullifier), Received);
    State(true, 1, 0, 0, Db(map[], []), [request, request])
  }

  /** Two proved requests: the first insert wins, the second finds its pair taken. */
  lemma SecondInsertLoses(s: State, nullifier: string)
    requires |s.requests| == 2 && s.hasStorage && s.db == Db(map[], [])
    requires s.Input(0) == s.Input(1) && s.Input(0).petitionId != "" && nullifier != ""
    requires s.Phase(0) == s.Phase(1) == Returned(NotFound, Some(nullifier))
    ensures Enabled(s, Save(0, Healthy)) && Enabled(Apply(s, Save(0, Healthy)), Save(1, Healthy))
    ensures Apply(Apply(s, Save(0, Healthy)), Save(1, Healthy)).requests[1].phase == Finished(LostRace(nullifier))
    ensures |Apply(Apply(s, Save(0, Healthy)), Save(1, Healthy)).db.signatures| == 1
  {
    var sig := Signature(s.Input(0).petitionId, nullifier, s.Input(0).fields);
    var t := Apply(s, Save(0, Healthy));
    assert t.db.signatures == [sig];
    assert t.db.signatures[0].petitionId == sig.petitionId && t.db.signatures[0].nullifier == nullifier;
    assert t.db.Taken(sig.petitionId, nullifier);
  }

  /**
   * For every petition and nullifier there is a run from a fresh service in which two requests pass
   * the duplicate check, one is stored and the other loses the race; it is answered 200 unless an
   * identifier contains the searched word.
   */
  lemma LostRaceHappens(petitionId: string, fields: seq<string>, innerNullifier: string, nullifier: string)
    returns (states: seq<State>, steps: seq<Step>)
    requires petitionId != "" && nullifier != ""
    ensures IsRun(states, steps) && states[0] == TwoRequests(petitionId, fields, innerNullifier)
    ensures var last := states[|steps|];
            && |last.requests| == 2 && last.requests[1].phase == Finished(LostRace(nullifier))
            && last.requests[1].input == states[0].requests[1].input
            && |last.db.signatures| == 1
    ensures !Answers.Contains(nullifier, Answers.DUPLICATE) && !Answers.Contains(petitionId, Answers.DUPLICATE) ==>
              Answers.Status(states[|steps|].requests[1].phase.ending, petitionId) == 200
  {
    hide Enabled, Apply, Replay, Answers.Contains, IsRun;
    var start := TwoRequests(petitionId, fields, innerNullifier);
    EmptyReplay(start);
    steps := ArriveProved(start, [], start, 0, nullifier);
    var proved := Returned(NotFound, Some(nullifier));
    var one := start.Goto(0, proved);
    steps := ArriveProved(start, steps, one, 1, nullifier);
    var both := one.Goto(1, proved);
    SecondInsertLoses(both, nullifier);
    TwoSteps(start, steps, both, Save(0, Healthy), Save(1, Healthy));
    KeepsInputs(both, Save(0, Healthy));
    KeepsInputs(Apply(both, Save(0, Healthy)), Save(1, Healthy));
    steps := steps + [Save(0, Healthy), Save(1, Healthy)];
    states := ReplayIsRun(start, steps);
    Answers.LostRaceIsConflictIff(nullifier, petitionId);
  }

  lemma EmptyReplay(s: State)
    ensures Replay(s, []) == Some(s)
  {
  }

  lemma KeepsInputs(s: State, step: Step)
    requires Enabled(s, step) && !step.Create?
    ensures |Apply(s, step).requests| == |s.requests|
    ensures forall j :: 0 <= j < |s.requests| ==> Apply(s, step).requests[j].input == s.requests[j].input
  {
    MoveOnly(s, step);
  }
}
