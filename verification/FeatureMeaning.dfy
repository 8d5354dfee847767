/** What the feature formulas mean for prices, quantities and time. */
module FeatureMeaning {
  import opened Reals
  import opened Features

  predicate Sane(t: Tick) {
    0.0 < t.bid <= t.ask && 0.0 <= t.bidQuantity && 0.0 <= t.askQuantity
  }

  // ----- prices and quantities

  lemma DivisionUndone(a: real, b: real)
    requires b != 0.0
    ensures a / b * b == a
  {
  }

  lemma SameQuotient(a: real, b: real, total: real)
    requires total > 0.0 && a * total == b * total
    ensures a == b
  {
  }

  lemma NotNegative(a: real, total: real)
    requires total > 0.0 && a >= 0.0
    ensures a / total >= 0.0 && (a / total == 0.0 <==> a == 0.0)
  {
  }

  /** Two parts of a positive total, and how far one exceeds the other, as shares of the total. */
  lemma Shares(b: real, a: real, bids: real, asks: real, excess: real)
    requires b + a > 0.0
    requires bids * (b + a) == b && asks * (b + a) == a && excess * (b + a) == b - a
    ensures bids + asks == 1.0 && excess == bids - asks
  {
    var total := b + a;
    assert bids * total == b && asks * total == a && excess * total == b - a;
    assert (bids + asks) * total == bids * total + asks * total;
    SameQuotient(bids + asks, 1.0, total);
    assert (bids - asks) * total == bids * total - asks * total;
    SameQuotient(bids - asks, excess, total);
  }

  /** The imbalance of a book with quantity is one less twice the asks' share of it. */
  lemma ImbalanceIsShare(t: Tick)
    requires Sane(t) && Total(t) > 0.0
    ensures Imbalance(t) == 1.0 - 2.0 * (t.askQuantity / Total(t)) == 2.0 * (t.bidQuantity / Total(t)) - 1.0
    ensures -1.0 <= Imbalance(t) <= 1.0
    ensures Imbalance(t) == 1.0 <==> t.askQuantity == 0.0
    ensures Imbalance(t) == -1.0 <==> t.bidQuantity == 0.0
  {
    var total, asks, bids := Total(t), t.askQuantity / Total(t), t.bidQuantity / Total(t);
    DivisionUndone(t.askQuantity, total);
    DivisionUndone(t.bidQuantity, total);
    DivisionUndone(t.bidQuantity - t.askQuantity, total);
    Shares(t.bidQuantity, t.askQuantity, bids, asks, Imbalance(t));
    NotNegative(t.askQuantity, total);
    NotNegative(t.bidQuantity, total);
  }

  // ----- products, with their linear use kept apart from their laws

  function Times(a: real, b: real): real { a * b }

  lemma TimesAdds(a: real, b: real, c: real)
    ensures Times(a, b + c) == Times(a, b) + Times(a, c)
  {
  }

  lemma TimesHalves(a: real, b: real)
    ensures Times(a / 2.0, 2.0 * b) == Times(a, b)
  {
  }

  lemma TimesOne(a: real)
    ensures Times(a, 1.0) == a
  {
  }

  lemma TimesSign(a: real, b: real)
    requires a >= 0.0 && b >= 0.0
    ensures Times(a, b) >= 0.0
    ensures a > 0.0 && b > 0.0 ==> Times(a, b) > 0.0
  {
  }

  /**
   The microprice is the middle moved by half the spread times the imbalance: to the ask when the
   bids hold the quantity, to the bid when the asks do. It never leaves the spread.
   */
  lemma MicropriceLeans(t: Tick)
    requires Sane(t)
    ensures Microprice(t) == Mid(t) + (t.ask - t.bid) / 2.0 * Imbalance(t)
    ensures t.bid <= Microprice(t) <= t.ask
  {
    var half := (t.ask - t.bid) / 2.0;
    assert Microprice(t) == Mid(t) + Times(half, Imbalance(t)) && t.bid <= Microprice(t) <= t.ask by {
      hide Times;
      if Total(t) > 0.0 {
        ImbalanceIsShare(t);
        DivisionUndone(t.askQuantity, Total(t));
        MicropriceIs(t, t.askQuantity / Total(t));
        hide Microprice, Imbalance, Total;
        Leaning(t.ask - t.bid, t.askQuantity / Total(t), Imbalance(t));
      } else {
        TimesAdds(half, 0.0, 0.0);
      }
    }
  }

  /** Half the width times one less twice a share is half the width less that share of it. */
  lemma Leaning(width: real, share: real, imbalance: real)
    requires width >= 0.0 && 0.0 <= share <= 1.0 && imbalance == 1.0 - 2.0 * share
    ensures Times(width / 2.0, imbalance) == width / 2.0 - Times(width, share)
    ensures 0.0 <= Times(width, share) <= width
  {
    hide Times;
    TimesAdds(width / 2.0, imbalance, 2.0 * share);
    TimesOne(width / 2.0);
    TimesHalves(width, share);
    TimesSign(width, share);
    TimesSign(width, 1.0 - share);
    TimesAdds(width, share, 1.0 - share);
    TimesOne(width);
  }

  lemma MicropriceIs(t: Tick, asks: real)
    requires Total(t) > 0.0 && asks * Total(t) == t.askQuantity
    ensures Microprice(t) == t.ask - Times(t.ask - t.bid, asks)
  {
    var weighted := t.ask * t.bidQuantity + t.bid * t.askQuantity;
    DivisionUndone(weighted, Total(t));
    WeightedMiddle(t.bid, t.ask, t.bidQuantity, t.askQuantity, asks);
    SameQuotient(weighted / Total(t), t.ask - (t.ask - t.bid) * asks, Total(t));
  }

  lemma WeightedMiddle(bid: real, ask: real, bidQuantity: real, askQuantity: real, asks: real)
    requires asks * (bidQuantity + askQuantity) == askQuantity
    ensures (ask - (ask - bid) * asks) * (bidQuantity + askQuantity) == ask * bidQuantity + bid * askQuantity
  {
    var total, width := bidQuantity + askQuantity, ask - bid;
    calc {
      (ask - width * asks) * total;
      ask * total - width * (asks * total);
      ask * total - width * askQuantity;
      ask * bidQuantity + bid * askQuantity;
    }
  }

  /** More quantity at the bid moves the microprice towards the ask, strictly unless it is there. */
  lemma MicropriceFollowsBids(t: Tick, u: Tick)
    requires Sane(t) && Sane(u) && Total(t) > 0.0
    requires u.bid == t.bid && u.ask == t.ask && u.askQuantity == t.askQuantity && t.bidQuantity < u.bidQuantity
    ensures Microprice(t) <= Microprice(u)
    ensures t.bid < t.ask && t.askQuantity > 0.0 ==> Microprice(t) < Microprice(u)
  {
    ImbalanceIsShare(t);
    ImbalanceIsShare(u);
    SmallerShare(t.askQuantity, Total(t), Total(u));
    DivisionUndone(t.askQuantity, Total(t));
    DivisionUndone(u.askQuantity, Total(u));
    MicropriceIs(t, t.askQuantity / Total(t));
    MicropriceIs(u, u.askQuantity / Total(u));
    hide Microprice, Imbalance, Times;
    var width, asks, fewer := t.ask - t.bid, t.askQuantity / Total(t), u.askQuantity / Total(u);
    TimesAdds(width, fewer, asks - fewer);
    TimesSign(width, asks - fewer);
  }

  lemma SmallerShare(part: real, total: real, larger: real)
    requires 0.0 <= part && 0.0 < total < larger
    ensures part / larger <= part / total
    ensures part > 0.0 ==> part / larger < part / total
  {
    DivisionUndone(part, total);
    DivisionUndone(part, larger);
  }

  /** The spread is in basis points of the middle, the event rate in events a second. */
  lemma SpreadIs(t: Tick)
    requires Sane(t)
    ensures Spread(t) * Mid(t) == (t.ask - t.bid) * 10000.0
  {
    var quotient := (t.ask - t.bid) / Mid(t);
    DivisionUndone(t.ask - t.bid, Mid(t));
    assert quotient * 10000.0 * Mid(t) == quotient * Mid(t) * 10000.0;
  }

  lemma EventRateIs(delta: int)
    ensures delta > 0 ==> EventRate(delta) * (delta as real / 1_000_000_000.0) == 10.0
    ensures delta <= 0 ==> EventRate(delta) == 0.0
  {
    if delta > 0 {
      DivisionUndone(10.0, delta as real / 1_000_000_000.0);
    }
  }

  // ----- returns

  /** The law of logarithms, for the numbers the features take them of. */
  ghost predicate LogLaw(m: Numerics) {
    forall x: real, y: real | x > 0.0 && y > 0.0 :: m.ln(x * y) == m.ln(x) + m.ln(y)
  }

  /** Returns add up: over two stretches of time the return is the sum of the returns. */
  lemma ReturnsAdd(now: Tick, middle: Tick, before: Tick, m: Numerics)
    requires LogLaw(m) && Sane(now) && Sane(middle) && Sane(before)
    ensures LogReturn(now, before, m) == LogReturn(now, middle, m) + LogReturn(middle, before, m)
  {
    LogReturnIs(now, before, m);
    LogReturnIs(now, middle, m);
    LogReturnIs(middle, before, m);
    hide Mid, LogReturn, LogLaw;
    LogOfQuotients(Mid(now), Mid(middle), Mid(before), m);
    Tenfold(m.ln(Mid(now) / Mid(middle)), m.ln(Mid(middle) / Mid(before)), m.ln(Mid(now) / Mid(before)));
  }

  lemma LogOfQuotients(x: real, y: real, z: real, m: Numerics)
    requires LogLaw(m) && x > 0.0 && y > 0.0 && z > 0.0
    ensures m.ln(x / z) == m.ln(x / y) + m.ln(y / z)
  {
    hide LogLaw;
    var a, b, c := x / y, y / z, x / z;
    DivisionUndone(x, y);
    DivisionUndone(y, z);
    PositiveQuotient(x, y);
    PositiveQuotient(y, z);
    Chained(x, y, z, a, b);
    LogOfProduct(a, b, c, m);
  }

  lemma LogOfProduct(a: real, b: real, c: real, m: Numerics)
    requires LogLaw(m) && a > 0.0 && b > 0.0 && c == a * b
    ensures m.ln(c) == m.ln(a) + m.ln(b)
  {
    assert m.ln(a * b) == m.ln(a) + m.ln(b);
  }

  lemma LogReturnIs(now: Tick, before: Tick, m: Numerics)
    requires Sane(now) && Sane(before)
    ensures Mid(now) > 0.0 && Mid(before) > 0.0
    ensures LogReturn(now, before, m) == m.ln(Mid(now) / Mid(before)) * 10000.0
  {
  }

  lemma PositiveQuotient(a: real, b: real)
    requires a > 0.0 && b > 0.0
    ensures a / b > 0.0
  {
  }

  lemma Chained(now: real, middle: real, before: real, a: real, b: real)
    requires before > 0.0 && a * middle == now && b * before == middle
    ensures now / before == a * b
  {
    assert a * b * before == a * (b * before) == now;
    DivisionUndone(now, before);
    SameQuotient(now / before, a * b, before);
  }

  lemma Tenfold(a: real, b: real, c: real)
    requires c == a + b
    ensures c * 10000.0 == a * 10000.0 + b * 10000.0
  {
  }

  /** Hence the lagged return of a slice is the sum of its one-event returns over the lag. */
  lemma {:induction false} LaggedReturnIsSum(ticks: seq<Tick>, i: nat, lag: nat, m: Numerics)
    requires LogLaw(m) && Quoted(ticks) && 1 <= lag <= i < |ticks|
    requires forall t | t in ticks :: Sane(t)
    ensures LaggedReturn(MidColumn(ticks), lag, m)[i] == Sum(ReturnColumn(ticks, m)[i - lag + 1..i + 1])
    decreases lag
  {
    hide LogReturn, LaggedReturn, MidColumn, Sane;
    var column := ReturnColumn(ticks, m);
    var window := column[i - lag + 1..i + 1];
    ReturnsAgree(ticks, i, lag, m);
    ReturnsAgree(ticks, i, 1, m);
    assert window[|window| - 1] == column[i];
    if lag == 1 {
      assert window[..|window| - 1] == [];
    } else {
      LaggedReturnIsSum(ticks, i - 1, lag - 1, m);
      ReturnsAgree(ticks, i - 1, lag - 1, m);
      assert window[..|window| - 1] == column[i - lag + 1..i];
      assert ticks[i] in ticks && ticks[i - 1] in ticks && ticks[i - lag] in ticks;
      ReturnsAdd(ticks[i], ticks[i - 1], ticks[i - lag], m);
    }
  }

  // ----- volatility

  /** The sum of the squared distances from a value. */
  function SquaredDistances(values: seq<real>, from: real): real {
    if values == [] then 0.0
    else
      var last := values[|values| - 1];
      SquaredDistances(values[..|values| - 1], from) + (last - from) * (last - from)
  }

  lemma {:induction false} DistancesExpand(values: seq<real>, from: real)
    ensures SquaredDistances(values, from) ==
            Sum(Squares(values)) - 2.0 * (from * Sum(values)) + |values| as real * (from * from)
    ensures SquaredDistances(values, from) >= 0.0
    decreases |values|
  {
    hide Sum, Squares, SquaredDistances;
    SumsGrow(values, from);
    if values != [] {
      var n := |values| - 1;
      var init, last := values[..n], values[n];
      DistancesExpand(init, from);
      OneMoreDistance(SquaredDistances(init, from), Sum(Squares(init)), Sum(init), n as real, last, from);
      assert |values| as real == n as real + 1.0;
      NotNegativeSquare(last - from);
    }
  }

  lemma SumsGrow(values: seq<real>, from: real)
    ensures values == [] ==> Sum(values) == 0.0 && Sum(Squares(values)) == 0.0 && SquaredDistances(values, from) == 0.0
    ensures values != [] ==>
              var init, last := values[..|values| - 1], values[|values| - 1];
              && Sum(values) == Sum(init) + last && Sum(Squares(values)) == Sum(Squares(init)) + last * last
              && SquaredDistances(values, from) == SquaredDistances(init, from) + (last - from) * (last - from)
  {
    if values != [] {
      var n := |values| - 1;
      SquaresOfWindow(values, 0, n);
      assert values[0..n] == values[..n] && Squares(values)[0..n] == Squares(values)[..n];
    }
  }

  lemma NotNegativeSquare(x: real)
    ensures x * x >= 0.0
  {
  }

  lemma OneMoreDistance(distances: real, squares: real, sum: real, count: real, last: real, from: real)
    requires distances == squares - 2.0 * (from * sum) + count * (from * from)
    ensures distances + (last - from) * (last - from)
         == squares + last * last - 2.0 * (from * (sum + last)) + (count + 1.0) * (from * from)
  {
    assert (last - from) * (last - from) == last * last - 2.0 * (from * last) + from * from;
    assert from * (sum + last) == from * sum + from * last;
    assert (count + 1.0) * (from * from) == count * (from * from) + from * from;
  }

  /**
   The volatility feature is the root of the mean squared distance of the latest twenty returns from
   their mean; the difference it is computed from is never negative.
   */
  lemma VolatilityIsDeviation(recent: seq<real>, m: Numerics)
    requires |recent| == VOLATILITY_WINDOW
    ensures var mean := Sum(recent) / 20.0;
            Volatility(recent, m) == m.root(SquaredDistances(recent, mean) / 20.0)
    ensures SquaredDistances(recent, Sum(recent) / 20.0) >= 0.0
  {
    hide Sum, Squares, SquaredDistances;
    var sum, squares, mean := Sum(recent), Sum(Squares(recent)), Sum(recent) / 20.0;
    DistancesExpand(recent, mean);
    assert |recent| as real == 20.0;
    RootOf(sum, squares, mean, SquaredDistances(recent, mean), m);
  }

  lemma RootOf(sum: real, squares: real, mean: real, distances: real, m: Numerics)
    requires mean == sum / 20.0 && distances >= 0.0
    requires distances == squares - 2.0 * (mean * sum) + 20.0 * (mean * mean)
    ensures Deviation(sum, squares, VOLATILITY_WINDOW, m) == m.root(distances / 20.0)
  {
    hide Variance;
    var variance, square := distances / 20.0, mean * mean;
    MeanTimesSum(sum, mean, square);
    assert squares / 20.0 - square == variance;
    VarianceIs(sum, squares, mean, variance);
    assert MaxZero(variance) == variance;
  }

  lemma MeanTimesSum(sum: real, mean: real, square: real)
    requires mean == sum / 20.0 && square == mean * mean
    ensures mean * sum == 20.0 * square
  {
    assert sum == 20.0 * mean;
  }

  lemma VarianceIs(sum: real, squares: real, mean: real, variance: real)
    requires mean == sum / 20.0 && squares / 20.0 - mean * mean == variance
    ensures Variance(sum, squares, VOLATILITY_WINDOW) == variance
  {
  }
}
