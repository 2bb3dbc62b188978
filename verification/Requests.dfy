/** Requests by number, any of which may fail by throwing. */
module Requests {

  /** None of n requests from request k on fails. */
  ghost predicate Answered(fails: nat -> bool, k: nat, n: nat)
  {
    forall i: nat :: k <= i < k + n ==> !fails(i)
  }

  lemma OneAnswer(fails: nat -> bool, k: nat, n: nat, all: nat)
    ensures Answered(fails, k, 0)
    ensures Answered(fails, k, n) && !fails(k + n) ==> Answered(fails, k, n + 1)
    ensures fails(k + n) && n < all ==> !Answered(fails, k, all)
  {
  }
}
