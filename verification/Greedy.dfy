/** Taking a quantity from levels in price order is the cheapest way to take it. */
module Greedy {

  function Total(xs: seq<int>): int {
    if xs == [] then 0 else xs[0] + Total(xs[1..])
  }

  /** The value of taking xs[i] at each weight. */
  function Cost(weights: seq<int>, xs: seq<int>): int
    requires |weights| == |xs|
  {
    if xs == [] then 0 else weights[0] * xs[0] + Cost(weights[1..], xs[1..])
  }

  /** Takes what it can from each level in turn. */
  function Takes(available: seq<int>, wanted: int): (r: seq<int>)
    ensures |r| == |available|
  {
    if available == [] then []
    else
      var take := if wanted <= 0 then 0 else if wanted < available[0] then wanted else available[0];
      [take] + Takes(available[1..], wanted - take)
  }

  ghost predicate NonNegative(xs: seq<int>) {
    forall i | 0 <= i < |xs| :: xs[i] >= 0
  }

  /** An allocation takes from each level no more than is there. */
  ghost predicate Feasible(xs: seq<int>, available: seq<int>) {
    |xs| == |available| && forall i | 0 <= i < |xs| :: 0 <= xs[i] <= available[i]
  }

  ghost predicate Ascending(weights: seq<int>) {
    forall i, j | 0 <= i < j < |weights| :: weights[i] <= weights[j]
  }

  lemma {:induction false} TotalNonNegative(xs: seq<int>)
    requires NonNegative(xs)
    ensures Total(xs) >= 0
    decreases xs
  {
    if xs != [] {
      TotalNonNegative(xs[1..]);
    }
  }

  /** Exactly the smaller of what is wanted and what is there. */
  lemma {:induction false} TakesTotal(available: seq<int>, wanted: int)
    requires NonNegative(available) && wanted >= 0
    ensures Feasible(Takes(available, wanted), available)
    ensures Total(Takes(available, wanted)) == if wanted < Total(available) then wanted else Total(available)
    decreases available
  {
    if available != [] {
      var take := if wanted < available[0] then wanted else available[0];
      TakesTotal(available[1..], wanted - take);
      TotalNonNegative(available[1..]);
      var r := Takes(available, wanted);
      assert r[1..] == Takes(available[1..], wanted - take);
      forall i | 0 <= i < |r| ensures 0 <= r[i] <= available[i] {
        if i > 0 {
          assert r[i] == r[1..][i - 1] && available[i] == available[1..][i - 1];
        }
      }
    }
  }

  lemma {:induction false} CostAtLeast(weights: seq<int>, xs: seq<int>, least: int)
    requires |weights| == |xs| && NonNegative(xs)
    requires forall i | 0 <= i < |weights| :: least <= weights[i]
    ensures Cost(weights, xs) >= least * Total(xs)
    decreases xs
  {
    if xs != [] {
      CostAtLeast(weights[1..], xs[1..], least);
      assert least * Total(xs) == least * xs[0] + least * Total(xs[1..]);
    }
  }

  lemma {:induction false} NothingTaken(available: seq<int>, weights: seq<int>)
    requires |weights| == |available|
    ensures Total(Takes(available, 0)) == 0 && Cost(weights, Takes(available, 0)) == 0
    decreases available
  {
    if available != [] {
      NothingTaken(available[1..], weights[1..]);
      assert Takes(available, 0)[1..] == Takes(available[1..], 0);
    }
  }

  /** An allocation of `extra` more than the greedy one costs at least `extra` times the least weight more. */
  lemma {:induction false} TakesCheapest(weights: seq<int>, available: seq<int>, wanted: int, xs: seq<int>, least: int)
    requires |weights| == |available| && Ascending(weights) && NonNegative(available) && wanted >= 0
    requires Feasible(xs, available)
    requires forall i | 0 <= i < |weights| :: least <= weights[i]
    requires Total(xs) >= Total(Takes(available, wanted))
    ensures Cost(weights, xs) >=
            Cost(weights, Takes(available, wanted)) + least * (Total(xs) - Total(Takes(available, wanted)))
    decreases available
  {
    if available != [] {
      var greedy := Takes(available, wanted);
      var take := greedy[0];
      var w, x := weights[0], xs[0];
      assert greedy[1..] == Takes(available[1..], wanted - take);
      TailFeasible(xs, available);
      if x <= take {
        TakesCheapest(weights[1..], available[1..], wanted - take, xs[1..], w);
      } else {
        NothingTaken(available[1..], weights[1..]);
        CostAtLeast(weights[1..], xs[1..], w);
      }
      Combine(least, w, x, take, Total(xs[1..]), Total(greedy[1..]), Cost(weights[1..], xs[1..]), Cost(weights[1..], greedy[1..]));
    }
  }

  lemma TailFeasible(xs: seq<int>, available: seq<int>)
    requires xs != [] && Feasible(xs, available)
    ensures Feasible(xs[1..], available[1..]) && NonNegative(xs[1..]) && Total(xs[1..]) >= 0
  {
    assert forall i | 0 <= i < |xs[1..]| :: xs[1..][i] == xs[i + 1] && available[1..][i] == available[i + 1];
    TotalNonNegative(xs[1..]);
  }

  /** The first level's part of the comparison. */
  lemma Combine(least: int, w: int, x: int, take: int, restX: int, restTake: int, costX: int, costTake: int)
    requires least <= w && x + restX >= take + restTake
    requires costX >= costTake + w * (restX - restTake)
    ensures w * x + costX >= w * take + costTake + least * (x + restX - take - restTake)
  {
    var extra := x + restX - take - restTake;
    assert w * (restX - restTake) == w * (take + extra - x);
    assert w * (take + extra - x) == w * take + w * extra - w * x;
  }

  /** No allocation of the same total over the same levels is cheaper. */
  lemma GreedyIsOptimal(weights: seq<int>, available: seq<int>, wanted: int, xs: seq<int>)
    requires |weights| == |available| && Ascending(weights) && NonNegative(available) && wanted >= 0
    requires Feasible(xs, available) && Total(xs) == Total(Takes(available, wanted))
    ensures Cost(weights, Takes(available, wanted)) <= Cost(weights, xs)
  {
    var least := if weights == [] then 0 else weights[0];
    TakesCheapest(weights, available, wanted, xs, least);
  }
}
