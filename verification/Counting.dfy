/** How the size of a set changes when one element comes or goes. */
module Counting {

  function One(b: bool): int { if b then 1 else 0 }

  lemma CardinalAfterMove<T>(before: set<T>, after: set<T>, x: T)
    requires before - {x} == after - {x}
    ensures |after| - One(x in after) == |before| - One(x in before)
  {
    assert before == (before - {x}) + (if x in before then {x} else {});
    assert after == (after - {x}) + (if x in after then {x} else {});
  }
}
