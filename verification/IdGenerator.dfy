/**
 The contract the model assumes of `nas::id_generator_t`: a set of in-use ids drawn from 1..max.
 Allocation yields any free id and throws only when none is left; reservation succeeds exactly on
 a free id in range; releasing an id that is not in use does nothing.
 */
module IdGenerator {
  import opened Wrappers

  predicate IsFree(inUse: set<nat>, max: nat, id: nat) {
    0 < id <= max && id !in inUse
  }

  /** alloc_id, with the generator's free choice made explicit; None is the exception. */
  function Allocate(inUse: set<nat>, max: nat, choice: nat): Option<nat> {
    if IsFree(inUse, max, choice) then Some(choice) else None
  }

  /** alloc_id as a call: some free id, or the exception when every id is in use. */
  method AllocId(inUse: set<nat>, max: nat) returns (r: Option<nat>)
    ensures r.Some? ==> IsFree(inUse, max, r.value)
    ensures r.None? ==> max <= |inUse|
  {
    var id := 1;
    while id <= max
      invariant 1 <= id <= max + 1
      invariant forall k :: 1 <= k < id ==> k in inUse
    {
      if id !in inUse {
        return Some(id);
      }
      id := id + 1;
    }
    FullGenerator(inUse, max);
    r := None;
  }

  lemma {:induction false} FullGenerator(inUse: set<nat>, max: nat)
    requires forall k :: 1 <= k <= max ==> k in inUse
    ensures max <= |inUse|
  {
    if max > 0 {
      FullGenerator(inUse - {max}, max - 1);
    }
  }

  lemma {:induction false} SubsetSize(a: set<nat>, b: set<nat>)
    requires a <= b
    ensures |a| <= |b|
  {
    if x :| x in a {
      SubsetSize(a - {x}, b - {x});
    }
  }
}
