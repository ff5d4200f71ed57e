/** Money as an exact integer number of 1/10000 units, and sums of amounts. */
module Amounts {
  type Money = int

  function Sum(amounts: seq<Money>): Money {
    if amounts == [] then 0 else Sum(amounts[..|amounts| - 1]) + amounts[|amounts| - 1]
  }

  lemma {:induction false} PositiveSum(amounts: seq<Money>)
    requires forall i | 0 <= i < |amounts| :: amounts[i] > 0
    ensures amounts != [] <==> Sum(amounts) > 0
    ensures Sum(amounts) >= 0
  {
    if amounts != [] {
      assert forall i | 0 <= i < |amounts| - 1 :: amounts[..|amounts| - 1][i] == amounts[i];
      PositiveSum(amounts[..|amounts| - 1]);
    }
  }
}
