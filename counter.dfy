/** The counters collection: one record per series name holding its
    current `sequence`.  Every store call is one indivisible step. */
module Counter {

  /** The sequence of series `id`, reading an absent record as 0 (an
      upserted `$inc` starts from 0). */
  function Current(m: map<string, nat>, id: string): nat
  {
    if id in m then m[id] else 0
  }

  /** The state after `initializeCounter(id)`: a record with sequence 0 is
      created only when none exists. */
  function Initialized(m: map<string, nat>, id: string): (m': map<string, nat>)
    ensures id in m'
    ensures id in m ==> m' == m
    ensures id !in m ==> m'[id] == 0 && m'.Keys == m.Keys + {id}
    ensures forall other :: other != id ==> (other in m' <==> other in m)
    ensures forall other :: other != id && other in m ==> m'[other] == m[other]
  {
    if id in m then m else m[id := 0]
  }

  /** The state after `getNextSequence(id)`: the record is created if absent
      and its sequence goes up by one. */
  function Bumped(m: map<string, nat>, id: string): (m': map<string, nat>)
    ensures id in m' && m'[id] == Current(m, id) + 1
    ensures m'.Keys == m.Keys + {id}
    ensures forall other :: other != id && other in m ==> m'[other] == m[other]
  {
    m[id := Current(m, id) + 1]
  }

  class CounterStore {
    var sequences: map<string, nat>

    constructor ()
      ensures sequences == map[]
    {
      sequences := map[];
    }

    /** `initializeCounter(counterId)` (utils/counter.js). */
    method InitializeCounter(id: string)
      modifies this
      ensures sequences == Initialized(old(sequences), id)
    {
      if id !in sequences {
        sequences := sequences[id := 0];
      }
    }

    /** `getNextSequence(counterId)`: `findOneAndUpdate` with `$inc`,
        `upsert` and `new: true`, returning the incremented sequence. */
    method GetNextSequence(id: string) returns (value: nat)
      modifies this
      ensures value == Current(old(sequences), id) + 1
      ensures sequences == Bumped(old(sequences), id)
    {
      value := Current(sequences, id) + 1;
      sequences := sequences[id := value];
    }

    /** `findOneAndUpdate({ _id: id }, { sequence: value }, { upsert: true })`:
        overwrite, or create, the record of one series. */
    method Upsert(id: string, value: nat)
      modifies this
      ensures sequences == old(sequences)[id := value]
    {
      sequences := sequences[id := value];
    }
  }

  // ---------------------------------------------------------------------
  // Successive allocations

  /** The counter state after `k` successive `getNextSequence(id)` calls. */
  function AfterCalls(m: map<string, nat>, id: string, k: nat): map<string, nat>
  {
    if k == 0 then m else Bumped(AfterCalls(m, id, k - 1), id)
  }

  /** The values those `k` calls return, in call order. */
  function Allocations(m: map<string, nat>, id: string, k: nat): (r: seq<nat>)
    ensures |r| == k
  {
    if k == 0 then []
    else Allocations(m, id, k - 1) + [Current(AfterCalls(m, id, k - 1), id) + 1]
  }

  /** The `i`-th of `k` successive calls returns the starting sequence plus
      `i + 1`, and the record ends `k` higher. */
  lemma {:induction false} AllocationsAreConsecutive(m: map<string, nat>, id: string, k: nat)
    ensures forall i :: 0 <= i < k ==> Allocations(m, id, k)[i] == Current(m, id) + i + 1
    ensures Current(AfterCalls(m, id, k), id) == Current(m, id) + k
  {
    if k > 0 {
      AllocationsAreConsecutive(m, id, k - 1);
    }
  }

  /** Successive calls return strictly increasing, hence pairwise distinct,
      values, all above the sequence the series started from. */
  lemma AllocationsIncrease(m: map<string, nat>, id: string, k: nat)
    ensures forall i, j :: 0 <= i < j < k ==> Allocations(m, id, k)[i] < Allocations(m, id, k)[j]
    ensures forall i :: 0 <= i < k ==> Allocations(m, id, k)[i] > Current(m, id)
  {
    AllocationsAreConsecutive(m, id, k);
  }

  /** On an absent series the first call returns 1. */
  lemma FirstAllocationIsOne(m: map<string, nat>, id: string)
    requires id !in m
    ensures Allocations(m, id, 1) == [1]
  {
  }

  /** Calls on one series leave every other series as it was. */
  lemma {:induction false} OtherSeriesUnchanged(m: map<string, nat>, id: string, k: nat, other: string)
    requires other != id
    ensures other in AfterCalls(m, id, k) <==> other in m
    ensures other in m ==> AfterCalls(m, id, k)[other] == m[other]
  {
    if k > 0 {
      OtherSeriesUnchanged(m, id, k - 1, other);
    }
  }

  /** `initializeCounter` never resets an existing series and a second call
      changes nothing. */
  lemma InitializeIdempotent(m: map<string, nat>, id: string)
    ensures Initialized(Initialized(m, id), id) == Initialized(m, id)
    ensures Current(Initialized(m, id), id) == Current(m, id)
  {
  }
}
