/** The proving service's queue: a buffered channel of slots and an atomic counter. */
module Slots {

  class ProvingService {
    const capacity: nat
    var slots: nat
    var inflight: int

    constructor (maxConcurrency: int)
      ensures slots == 0 && inflight == 0
      ensures capacity == if maxConcurrency > 1 then maxConcurrency else 1
    {
      capacity := if maxConcurrency <= 0 then 1 else maxConcurrency;
      slots := 0;
      inflight := 0;
    }

    /**
     * Returns once a slot is free or the context is done; when both hold, Go picks either.
     * A call that finds neither blocks, which is not a return.
     */
    method Acquire(contextDone: bool) returns (acquired: bool)
      requires slots < capacity || contextDone
      modifies this`slots, this`inflight
      ensures acquired ==> old(slots) < capacity && slots == old(slots) + 1 && inflight == old(inflight) + 1
      ensures !acquired ==> contextDone && slots == old(slots) && inflight == old(inflight)
    {
      if {
        case slots < capacity =>
          slots := slots + 1;
          inflight := inflight + 1;
          acquired := true;
        case contextDone =>
          acquired := false;
      }
    }

    method Release()
      modifies this`slots, this`inflight
      ensures old(slots) > 0 ==> slots == old(slots) - 1 && inflight == old(inflight) - 1
      ensures old(slots) == 0 ==> slots == 0 && inflight == old(inflight)
    {
      if slots > 0 {
        slots := slots - 1;
        inflight := inflight - 1;
      }
    }
  }
}
