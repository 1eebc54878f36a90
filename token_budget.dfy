/** The budget arithmetic shared by the two trimming loops of the knowledge
    manager: sums of token costs and the longest prefix that fits a budget. */
module TokenBudget {

  /** Total token cost of a sequence of costs (Python's `sum`). */
  function Sum(s: seq<nat>): nat
  {
    if s == [] then 0 else s[0] + Sum(s[1..])
  }

  lemma {:induction false} SumAppend(s: seq<nat>, x: nat)
    ensures Sum(s + [x]) == Sum(s) + x
  {
    if s != [] {
      assert (s + [x])[1..] == s[1..] + [x];
      SumAppend(s[1..], x);
    }
  }

  /** Extending a prefix by one element adds that element's cost. */
  lemma SumPrefixStep(s: seq<nat>, k: nat)
    requires k < |s|
    ensures Sum(s[..k + 1]) == Sum(s[..k]) + s[k]
  {
    assert s[..k + 1] == s[..k] + [s[k]];
    SumAppend(s[..k], s[k]);
  }

  /** Costs are non-negative, so prefix sums never decrease. */
  lemma {:induction false} SumPrefixMonotone(s: seq<nat>, i: nat, j: nat)
    requires i <= j <= |s|
    ensures Sum(s[..i]) <= Sum(s[..j])
  {
    if i < j {
      SumPrefixMonotone(s, i, j - 1);
      SumPrefixStep(s, j - 1);
    }
  }

  /** Reference definition of "how many leading items fit": take items from
      the front while the next one still fits into what is left of the budget.
      The result is the length of the longest prefix whose total cost is within
      the budget, and the first item left out is the one that overflows it. */
  function PrefixWithin(costs: seq<nat>, budget: int): (k: nat)
    ensures k <= |costs|
    ensures 0 < k ==> Sum(costs[..k]) <= budget
    ensures k < |costs| ==> Sum(costs[..k + 1]) > budget
  {
    if costs == [] || costs[0] > budget then 0
    else
      var rest := PrefixWithin(costs[1..], budget - costs[0]);
      assert costs[..rest + 1][1..] == costs[1..][..rest];
      assert rest + 1 < |costs| ==> costs[..rest + 2][1..] == costs[1..][..rest + 1];
      1 + rest
  }

  /** Any cut point that fits and whose next item overflows is the one
      PrefixWithin chooses: the characterisation determines the result. */
  lemma PrefixWithinUnique(costs: seq<nat>, budget: int, k: nat)
    requires k <= |costs|
    requires 0 < k ==> Sum(costs[..k]) <= budget
    requires k < |costs| ==> Sum(costs[..k + 1]) > budget
    ensures PrefixWithin(costs, budget) == k
  {
    var m := PrefixWithin(costs, budget);
    if k < m {
      SumPrefixMonotone(costs, k + 1, m);
    } else if m < k {
      SumPrefixMonotone(costs, m + 1, k);
    }
  }

  /** With a non-negative budget the kept prefix always fits, even when it is empty. */
  lemma PrefixWithinFits(costs: seq<nat>, budget: int)
    requires budget >= 0
    ensures Sum(costs[..PrefixWithin(costs, budget)]) <= budget
  {
    var k := PrefixWithin(costs, budget);
    if k == 0 {
      assert costs[..k] == [];
    }
  }

  /** Everything is kept exactly when the whole sequence fits. */
  lemma PrefixWithinAll(costs: seq<nat>, budget: int)
    requires costs == [] ==> budget >= 0
    ensures PrefixWithin(costs, budget) == |costs| <==> Sum(costs) <= budget
  {
    assert costs[..|costs|] == costs;
    if Sum(costs) <= budget {
      PrefixWithinUnique(costs, budget, |costs|);
    }
  }

  /** Stop at the first overflow: items after the first one that does not fit
      are never looked at, even those that would fit on their own. */
  lemma PrefixWithinIgnoresRest(costs: seq<nat>, extra: seq<nat>, budget: int)
    requires PrefixWithin(costs, budget) < |costs|
    ensures PrefixWithin(costs + extra, budget) == PrefixWithin(costs, budget)
  {
    var k := PrefixWithin(costs, budget);
    assert (costs + extra)[..k] == costs[..k];
    assert (costs + extra)[..k + 1] == costs[..k + 1];
    PrefixWithinUnique(costs + extra, budget, k);
  }

  /** Cheaper items never make fewer of them fit. */
  lemma {:induction false} PrefixWithinAntitone(cheap: seq<nat>, dear: seq<nat>, budget: int)
    requires |cheap| == |dear|
    requires forall i :: 0 <= i < |cheap| ==> cheap[i] <= dear[i]
    ensures PrefixWithin(dear, budget) <= PrefixWithin(cheap, budget)
  {
    if dear != [] && dear[0] <= budget {
      PrefixWithinAntitone(cheap[1..], dear[1..], budget - cheap[0]);
      PrefixWithinBudgetMonotone(dear[1..], budget - dear[0], budget - cheap[0]);
    }
  }

  /** A larger budget never makes fewer items fit. */
  lemma {:induction false} PrefixWithinBudgetMonotone(costs: seq<nat>, small: int, large: int)
    requires small <= large
    ensures PrefixWithin(costs, small) <= PrefixWithin(costs, large)
  {
    if costs != [] && costs[0] <= small {
      PrefixWithinBudgetMonotone(costs[1..], small - costs[0], large - costs[0]);
    }
  }
}
