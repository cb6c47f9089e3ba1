/** What sorting by repeated selection needs. */
module Sequences {

  /** Some key is the least. */
  lemma LeastAt(keys: seq<int>) returns (k: nat)
    requires keys != []
    ensures k < |keys| && forall j | 0 <= j < |keys| :: keys[k] <= keys[j]
  {
    k := 0;
    for i := 1 to |keys|
      invariant k < |keys| && forall j | 0 <= j < i :: keys[k] <= keys[j]
    {
      if keys[i] < keys[k] {
        k := i;
      }
    }
  }

  /** An element and the rest. */
  lemma TakenOut<T>(xs: seq<T>, k: nat)
    requires k < |xs|
    ensures var without := xs[..k] + xs[k + 1..];
            multiset(xs) == multiset{xs[k]} + multiset(without) && forall j | 0 <= j < |without| :: without[j] in xs
  {
    assert xs == xs[..k] + [xs[k]] + xs[k + 1..];
  }
}
