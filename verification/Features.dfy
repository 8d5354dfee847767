/**
 Top-of-book features built offline over whole slices and online over a bounded history. Numbers are
 reals; logarithms and the square root are parameters.
 */
module Features {
  import opened Results
  import opened Reals
  import opened L2Types

  const MAX_HISTORY := 25
  const VOLATILITY_WINDOW := 20
  const EPSILON: real := 0.000_000_000_001
  const UINT32_MAX := 0xFFFF_FFFF

  datatype Numerics = Numerics(ln: real -> real, ln1p: real -> real, root: real -> real)

  datatype Record = Record(timestamp: U64, bid: real, ask: real, bidVolume: int, askVolume: int)

  datatype Tick = Tick(timestamp: int, bid: real, ask: real, bidQuantity: real, askQuantity: real)

  type Scale = x: real | x > 0.0 witness 1.0

  predicate ValidRecord(r: Record) {
    && r.timestamp > 0 && 0.0 < r.bid <= r.ask
    && 0 <= r.bidVolume <= UINT32_MAX && 0 <= r.askVolume <= UINT32_MAX
  }

  /** What the recording validator establishes. */
  predicate ValidRecords(records: seq<Record>) {
    && (forall i | 0 <= i < |records| :: ValidRecord(records[i]))
    && (forall i | 0 < i < |records| :: records[i - 1].timestamp <= records[i].timestamp)
  }

  function TickOf(r: Record, scale: Scale): Tick {
    Tick(r.timestamp, r.bid, r.ask, r.bidVolume as real / scale, r.askVolume as real / scale)
  }

  function Ticks(records: seq<Record>, scale: Scale): seq<Tick> {
    seq(|records|, i requires 0 <= i < |records| => TickOf(records[i], scale))
  }

  // ----- one tick, as the online builder computes it

  function Mid(t: Tick): real { (t.bid + t.ask) / 2.0 }

  function Ratio(a: real, b: real): real { if b == 0.0 then 0.0 else a / b }

  function Spread(t: Tick): real { Ratio(t.ask - t.bid, Mid(t)) * 10000.0 }

  function Total(t: Tick): real { t.bidQuantity + t.askQuantity }

  function Imbalance(t: Tick): real {
    if Total(t) > 0.0 then (t.bidQuantity - t.askQuantity) / Total(t) else 0.0
  }

  function Microprice(t: Tick): real {
    if Total(t) > 0.0 then (t.ask * t.bidQuantity + t.bid * t.askQuantity) / Total(t) else Mid(t)
  }

  function LogReturn(now: Tick, then_: Tick, m: Numerics): real { m.ln(Ratio(Mid(now), Mid(then_))) * 10000.0 }

  function EventRate(delta: int): real { if delta > 0 then 10.0 / (delta as real / 1_000_000_000.0) else 0.0 }

  // ----- offline: columns over a whole slice

  /** What the segment check establishes before any column is built. */
  predicate Quoted(ticks: seq<Tick>) {
    forall i | 0 <= i < |ticks| ::
      0.0 < ticks[i].bid && 0.0 < ticks[i].ask && 0.0 <= ticks[i].bidQuantity && 0.0 <= ticks[i].askQuantity
  }

  function MidColumn(ticks: seq<Tick>): (mid: seq<real>)
    requires Quoted(ticks)
    ensures |mid| == |ticks| && AllPositive(mid)
  {
    seq(|ticks|, i requires 0 <= i < |ticks| => (ticks[i].bid + ticks[i].ask) / 2.0)
  }

  predicate AllPositive(values: seq<real>) {
    forall i | 0 <= i < |values| :: values[i] > 0.0
  }

  function SpreadColumn(ticks: seq<Tick>): (column: seq<real>)
    requires Quoted(ticks)
    ensures |column| == |ticks|
  {
    var mid := MidColumn(ticks);
    seq(|ticks|, i requires 0 <= i < |ticks| => (ticks[i].ask - ticks[i].bid) / mid[i] * 10000.0)
  }

  function TotalColumn(ticks: seq<Tick>): (column: seq<real>)
    ensures |column| == |ticks|
  {
    seq(|ticks|, i requires 0 <= i < |ticks| => ticks[i].bidQuantity + ticks[i].askQuantity)
  }

  function ImbalanceColumn(ticks: seq<Tick>): (column: seq<real>)
    ensures |column| == |ticks|
  {
    var total := TotalColumn(ticks);
    seq(|ticks|, i requires 0 <= i < |ticks| =>
      if total[i] > 0.0 then (ticks[i].bidQuantity - ticks[i].askQuantity) / total[i] else 0.0)
  }

  function MicropriceColumn(ticks: seq<Tick>): (column: seq<real>)
    requires Quoted(ticks)
    ensures |column| == |ticks|
  {
    var mid, total := MidColumn(ticks), TotalColumn(ticks);
    seq(|ticks|, i requires 0 <= i < |ticks| =>
      if total[i] > 0.0 then (ticks[i].ask * ticks[i].bidQuantity + ticks[i].bid * ticks[i].askQuantity) / total[i]
      else mid[i])
  }

  function EdgeColumn(ticks: seq<Tick>): (column: seq<real>)
    requires Quoted(ticks)
    ensures |column| == |ticks|
  {
    var mid, microprice := MidColumn(ticks), MicropriceColumn(ticks);
    seq(|ticks|, i requires 0 <= i < |ticks| => (microprice[i] - mid[i]) / mid[i] * 10000.0)
  }

  function QuantityColumn(ticks: seq<Tick>, m: Numerics): (column: seq<real>)
    requires Quoted(ticks)
    ensures |column| == |ticks|
  {
    seq(|ticks|, i requires 0 <= i < |ticks| =>
      m.ln((ticks[i].bidQuantity + EPSILON) / (ticks[i].askQuantity + EPSILON)))
  }

  /** The rows before the lag have no value; they are never read. */
  function LaggedReturn(mid: seq<real>, lag: nat, m: Numerics): (column: seq<real>)
    requires AllPositive(mid)
    ensures |column| == |mid|
  {
    seq(|mid|, i requires 0 <= i < |mid| => if i < lag then 0.0 else m.ln(mid[i] / mid[i - lag]) * 10000.0)
  }

  function LaggedDifference(values: seq<real>, lag: nat): (column: seq<real>)
    ensures |column| == |values|
  {
    seq(|values|, i requires 0 <= i < |values| => if i < lag then 0.0 else values[i] - values[i - lag])
  }

  function InterarrivalColumn(ticks: seq<Tick>, m: Numerics): (column: seq<real>)
    ensures |column| == |ticks|
  {
    seq(|ticks|, i requires 0 <= i < |ticks| =>
      if i == 0 then 0.0
      else
        var delta := ticks[i].timestamp as real - ticks[i - 1].timestamp as real;
        m.ln1p((if delta > 0.0 then delta else 0.0) / 1000.0))
  }

  function RateColumn(ticks: seq<Tick>): (column: seq<real>)
    ensures |column| == |ticks|
  {
    seq(|ticks|, i requires 0 <= i < |ticks| =>
      if i < 10 then 0.0
      else
        var seconds := (ticks[i].timestamp as real - ticks[i - 10].timestamp as real) / 1_000_000_000.0;
        if seconds > 0.0 then 10.0 / seconds else 0.0)
  }

  function TotalChangeColumn(ticks: seq<Tick>, m: Numerics): (column: seq<real>)
    requires Quoted(ticks)
    ensures |column| == |ticks|
  {
    var total := TotalColumn(ticks);
    seq(|ticks|, i requires 0 <= i < |ticks| =>
      if i == 0 then 0.0
      else
        assert total[i - 1] == ticks[i - 1].bidQuantity + ticks[i - 1].askQuantity;
        m.ln((total[i] + EPSILON) / (total[i - 1] + EPSILON)))
  }

  /** One-event returns; the first row has none. */
  function ReturnColumn(ticks: seq<Tick>, m: Numerics): (column: seq<real>)
    requires Quoted(ticks)
    ensures |column| == |ticks|
  {
    LaggedReturn(MidColumn(ticks), 1, m)
  }

  /** The sum of the usable values up to index k, the first one being left out. */
  function Cumulative(values: seq<real>, k: nat): real
    requires k < |values|
    decreases k
  {
    if k == 0 then 0.0 else Cumulative(values, k - 1) + values[k]
  }

  function Squares(values: seq<real>): (squares: seq<real>)
    ensures |squares| == |values|
  {
    seq(|values|, i requires 0 <= i < |values| => values[i] * values[i])
  }

  /** Rolling population standard deviation from differences of prefix sums. */
  function RollingStd(values: seq<real>, window: nat, i: nat, m: Numerics): real
    requires 0 < window <= i < |values|
  {
    var sum := Cumulative(values, i) - Cumulative(values, i - window);
    var squareSum := Cumulative(Squares(values), i) - Cumulative(Squares(values), i - window);
    var mean := sum / window as real;
    var variance := squareSum / window as real - mean * mean;
    m.root(if variance > 0.0 then variance else 0.0)
  }

  /** The row of a slice at one index, read out of its columns. */
  function OfflineRow(ticks: seq<Tick>, i: nat, m: Numerics): seq<real>
    requires Quoted(ticks) && MAX_HISTORY <= i < |ticks|
  {
    var mid, spread, imbalance := MidColumn(ticks), SpreadColumn(ticks), ImbalanceColumn(ticks);
    [ spread[i], imbalance[i], EdgeColumn(ticks)[i], QuantityColumn(ticks, m)[i],
      LaggedReturn(mid, 1, m)[i], LaggedReturn(mid, 2, m)[i], LaggedReturn(mid, 5, m)[i],
      LaggedReturn(mid, 10, m)[i], LaggedReturn(mid, 25, m)[i],
      LaggedDifference(imbalance, 1)[i], LaggedDifference(imbalance, 5)[i], LaggedDifference(spread, 1)[i],
      InterarrivalColumn(ticks, m)[i], RateColumn(ticks)[i],
      RollingStd(ReturnColumn(ticks, m), VOLATILITY_WINDOW, i, m), TotalChangeColumn(ticks, m)[i] ]
  }

  // ----- online: the last 26 ticks

  function Sum(values: seq<real>): real {
    if values == [] then 0.0 else Sum(values[..|values| - 1]) + values[|values| - 1]
  }

  /** The population standard deviation from a sum and a sum of squares. */
  function Deviation(sum: real, squareSum: real, count: nat, m: Numerics): real
    requires count > 0
  {
    m.root(MaxZero(Variance(sum, squareSum, count)))
  }

  function Variance(sum: real, squareSum: real, count: nat): real
    requires count > 0
  {
    var mean := sum / count as real;
    squareSum / count as real - mean * mean
  }

  /** The latest twenty one-event returns of the history. */
  function RecentReturns(history: seq<Tick>, m: Numerics): (r: seq<real>)
    requires |history| == MAX_HISTORY + 1
    ensures |r| == VOLATILITY_WINDOW
  {
    seq(VOLATILITY_WINDOW, j requires 0 <= j < VOLATILITY_WINDOW => LogReturn(history[j + 6], history[j + 5], m))
  }

  function Volatility(recent: seq<real>, m: Numerics): real {
    Deviation(Sum(recent), Sum(Squares(recent)), VOLATILITY_WINDOW, m)
  }

  function OnlineRow(history: seq<Tick>, m: Numerics): seq<real>
    requires |history| == MAX_HISTORY + 1
  {
    RowWith(history, Volatility(RecentReturns(history, m), m), m)
  }

  function RowWith(history: seq<Tick>, volatility: real, m: Numerics): seq<real>
    requires |history| == MAX_HISTORY + 1
  {
    var t, previous := history[25], history[24];
    [ Spread(t), Imbalance(t), Ratio(Microprice(t) - Mid(t), Mid(t)) * 10000.0,
      m.ln(Ratio(t.bidQuantity + EPSILON, t.askQuantity + EPSILON)),
      LogReturn(t, previous, m), LogReturn(t, history[23], m), LogReturn(t, history[20], m),
      LogReturn(t, history[15], m), LogReturn(t, history[0], m),
      Imbalance(t) - Imbalance(previous), Imbalance(t) - Imbalance(history[20]),
      Spread(t) - Spread(previous),
      m.ln1p(MaxZero((t.timestamp - previous.timestamp) as real) / 1000.0),
      EventRate(t.timestamp - history[15].timestamp),
      volatility,
      m.ln(Ratio(Total(t) + EPSILON, Total(previous) + EPSILON)) ]
  }

  // ----- prefix sums are window sums

  lemma {:induction false} CumulativeIsSum(values: seq<real>, low: nat, high: nat)
    requires low <= high < |values|
    ensures Cumulative(values, high) - Cumulative(values, low) == Sum(values[low + 1..high + 1])
    decreases high - low
  {
    var window := values[low + 1..high + 1];
    if low < high {
      CumulativeIsSum(values, low, high - 1);
      assert window[..|window| - 1] == values[low + 1..high];
    }
  }

  // ----- each column is what the online builder computes of one tick

  lemma PricesAgree(ticks: seq<Tick>, i: nat)
    requires Quoted(ticks) && i < |ticks|
    ensures MidColumn(ticks)[i] == Mid(ticks[i]) && SpreadColumn(ticks)[i] == Spread(ticks[i])
    ensures Mid(ticks[i]) > 0.0
  {
  }

  lemma QuantitiesAgree(ticks: seq<Tick>, i: nat)
    requires Quoted(ticks) && i < |ticks|
    ensures TotalColumn(ticks)[i] == Total(ticks[i]) && Total(ticks[i]) >= 0.0
    ensures ImbalanceColumn(ticks)[i] == Imbalance(ticks[i])
  {
  }

  lemma EdgesAgree(ticks: seq<Tick>, i: nat, m: Numerics)
    requires Quoted(ticks) && i < |ticks|
    ensures var t := ticks[i]; EdgeColumn(ticks)[i] == Ratio(Microprice(t) - Mid(t), Mid(t)) * 10000.0
    ensures var t := ticks[i];
            QuantityColumn(ticks, m)[i] == m.ln(Ratio(t.bidQuantity + EPSILON, t.askQuantity + EPSILON))
  {
    hide MidColumn, TotalColumn, Total, Mid;
    PricesAgree(ticks, i);
    QuantitiesAgree(ticks, i);
    assert MicropriceColumn(ticks)[i] == Microprice(ticks[i]);
  }

  lemma ReturnsAgree(ticks: seq<Tick>, i: nat, lag: nat, m: Numerics)
    requires Quoted(ticks) && lag <= i < |ticks|
    ensures LaggedReturn(MidColumn(ticks), lag, m)[i] == LogReturn(ticks[i], ticks[i - lag], m)
  {
    hide MidColumn, Mid;
    PricesAgree(ticks, i);
    PricesAgree(ticks, i - lag);
  }

  lemma DifferencesAgree(ticks: seq<Tick>, i: nat, lag: nat)
    requires Quoted(ticks) && lag <= i < |ticks|
    ensures LaggedDifference(ImbalanceColumn(ticks), lag)[i] == Imbalance(ticks[i]) - Imbalance(ticks[i - lag])
    ensures LaggedDifference(SpreadColumn(ticks), lag)[i] == Spread(ticks[i]) - Spread(ticks[i - lag])
  {
    hide ImbalanceColumn, SpreadColumn, Imbalance, Spread;
    PricesAgree(ticks, i);
    PricesAgree(ticks, i - lag);
    QuantitiesAgree(ticks, i);
    QuantitiesAgree(ticks, i - lag);
  }

  lemma ArrivalsAgree(ticks: seq<Tick>, i: nat, m: Numerics)
    requires 0 < i < |ticks|
    ensures InterarrivalColumn(ticks, m)[i] ==
            m.ln1p(MaxZero((ticks[i].timestamp - ticks[i - 1].timestamp) as real) / 1000.0)
  {
    RealDifference(ticks[i].timestamp, ticks[i - 1].timestamp);
  }

  lemma RatesAgree(ticks: seq<Tick>, i: nat)
    requires 10 <= i < |ticks|
    ensures RateColumn(ticks)[i] == EventRate(ticks[i].timestamp - ticks[i - 10].timestamp)
  {
    hide EventRate, RateColumn;
    var now, earlier := ticks[i].timestamp, ticks[i - 10].timestamp;
    RealDifference(now, earlier);
    var seconds := (now as real - earlier as real) / 1_000_000_000.0;
    assert RateColumn(ticks)[i] == if seconds > 0.0 then 10.0 / seconds else 0.0 by { RateAt(ticks, i); }
    RateOf(now - earlier, seconds);
  }

  lemma RealDifference(a: int, b: int)
    ensures (a - b) as real == a as real - b as real
  {
  }

  lemma RateAt(ticks: seq<Tick>, i: nat)
    requires 10 <= i < |ticks|
    ensures var seconds := (ticks[i].timestamp as real - ticks[i - 10].timestamp as real) / 1_000_000_000.0;
            RateColumn(ticks)[i] == if seconds > 0.0 then 10.0 / seconds else 0.0
  {
  }

  lemma RateOf(delta: int, seconds: real)
    requires seconds == delta as real / 1_000_000_000.0
    ensures EventRate(delta) == if seconds > 0.0 then 10.0 / seconds else 0.0
  {
  }

  lemma TotalsAgree(ticks: seq<Tick>, i: nat, m: Numerics)
    requires Quoted(ticks) && 0 < i < |ticks|
    ensures TotalChangeColumn(ticks, m)[i] == m.ln(Ratio(Total(ticks[i]) + EPSILON, Total(ticks[i - 1]) + EPSILON))
  {
    QuantitiesAgree(ticks, i);
    QuantitiesAgree(ticks, i - 1);
  }

  lemma WindowIsRecent(ticks: seq<Tick>, i: nat, m: Numerics)
    requires Quoted(ticks) && MAX_HISTORY <= i < |ticks|
    ensures ReturnColumn(ticks, m)[i - 19..i + 1] == RecentReturns(ticks[i - 25..i + 1], m)
    ensures Squares(ReturnColumn(ticks, m))[i - 19..i + 1] == Squares(RecentReturns(ticks[i - 25..i + 1], m))
  {
    hide LogReturn, LaggedReturn, MidColumn, Squares;
    var column, history := ReturnColumn(ticks, m), ticks[i - 25..i + 1];
    var recent := RecentReturns(history, m);
    forall j | 0 <= j < VOLATILITY_WINDOW ensures column[i - 19 + j] == recent[j] {
      var k := i - 19 + j;
      assert history[j + 6] == ticks[k] && history[j + 5] == ticks[k - 1];
      ReturnsAgree(ticks, k, 1, m);
    }
    assert column[i - 19..i + 1] == recent;
    SquaresOfWindow(column, i - 19, i + 1);
  }

  lemma SquaresOfWindow(values: seq<real>, low: nat, high: nat)
    requires low <= high <= |values|
    ensures Squares(values)[low..high] == Squares(values[low..high])
  {
    var squares, window := Squares(values)[low..high], Squares(values[low..high]);
    assert |squares| == |window|;
    forall i | 0 <= i < |window| ensures squares[i] == window[i] {
      assert values[low..high][i] == values[low + i];
    }
  }

  lemma VolatilityAgrees(ticks: seq<Tick>, i: nat, m: Numerics)
    requires Quoted(ticks) && MAX_HISTORY <= i < |ticks|
    ensures RollingStd(ReturnColumn(ticks, m), VOLATILITY_WINDOW, i, m)
         == Volatility(RecentReturns(ticks[i - 25..i + 1], m), m)
  {
    hide Sum, Cumulative, ReturnColumn, RecentReturns, Squares;
    var column := ReturnColumn(ticks, m);
    CumulativeIsSum(column, i - 20, i);
    CumulativeIsSum(Squares(column), i - 20, i);
    WindowIsRecent(ticks, i, m);
  }

  /**
   The online row over the last 26 ticks is the offline row at that index of the slice. The two
   compute the features by formulas of their own.
   */
  lemma RowsAgree(ticks: seq<Tick>, i: nat, m: Numerics)
    requires Quoted(ticks) && MAX_HISTORY <= i < |ticks|
    ensures OnlineRow(ticks[i - 25..i + 1], m) == OfflineRow(ticks, i, m)
  {
    hide RollingStd, Volatility, LogReturn, Spread, Imbalance, Microprice, Ratio, EventRate, Mid, MaxZero, Total,
         MidColumn, SpreadColumn, TotalColumn, ImbalanceColumn, MicropriceColumn, EdgeColumn, QuantityColumn,
         LaggedReturn, LaggedDifference, InterarrivalColumn, RateColumn, TotalChangeColumn, ReturnColumn, RecentReturns;
    VolatilityAgrees(ticks, i, m);
    PricesAgree(ticks, i);
    QuantitiesAgree(ticks, i);
    EdgesAgree(ticks, i, m);
    ReturnsAgree(ticks, i, 1, m);
    ReturnsAgree(ticks, i, 2, m);
    ReturnsAgree(ticks, i, 5, m);
    ReturnsAgree(ticks, i, 10, m);
    ReturnsAgree(ticks, i, 25, m);
    DifferencesAgree(ticks, i, 1);
    DifferencesAgree(ticks, i, 5);
    ArrivalsAgree(ticks, i, m);
    RatesAgree(ticks, i);
    TotalsAgree(ticks, i, m);
    var history := ticks[i - 25..i + 1];
    assert history[25] == ticks[i] && history[24] == ticks[i - 1] && history[23] == ticks[i - 2];
    assert history[20] == ticks[i - 5] && history[15] == ticks[i - 10] && history[0] == ticks[i - 25];
  }

  /** A row looks at no later tick: slices that share the last 26 ticks have the same row. */
  lemma NoLookahead(a: seq<Tick>, b: seq<Tick>, i: nat, j: nat, m: Numerics)
    requires Quoted(a) && Quoted(b) && MAX_HISTORY <= i < |a| && MAX_HISTORY <= j < |b|
    requires a[i - 25..i + 1] == b[j - 25..j + 1]
    ensures OfflineRow(a, i, m) == OfflineRow(b, j, m)
  {
    hide OfflineRow, OnlineRow;
    RowsAgree(a, i, m);
    RowsAgree(b, j, m);
  }

  // ----- continuity: boundaries and gaps

  datatype BoundaryKind = ConnectionStart | ConnectionEnd | RecordingQueueDrop | OtherKind

  datatype Boundary = Boundary(recordIndex: nat, kind: BoundaryKind)

  predicate Breaks(b: Boundary) { b.kind.ConnectionStart? || b.kind.RecordingQueueDrop? }

  function FeatureResetIndices(boundaries: seq<Boundary>): set<nat> {
    set b | b in boundaries && Breaks(b) && b.recordIndex > 0 :: b.recordIndex
  }

  /** The unsigned 64-bit difference of two timestamps, which wraps when they go back. */
  function Elapsed(earlier: U64, later: U64): U64 {
    var difference: int := later as int - earlier as int;
    difference % (UINT64_MAX + 1)
  }

  predicate Gap(records: seq<Record>, maxGap: int, i: nat)
    requires 0 < i < |records|
  {
    Elapsed(records[i - 1].timestamp, records[i].timestamp) > maxGap
  }

  /** A segment ends where the timestamps advance by more than the allowed gap, or go back by less than 2^64 minus it. */
  lemma GapIff(records: seq<Record>, maxGap: int, i: nat)
    requires 0 < i < |records|
    ensures var difference: int := records[i].timestamp as int - records[i - 1].timestamp as int;
      Gap(records, maxGap, i) <==>
      difference > maxGap || (difference < 0 && -difference < UINT64_MAX + 1 - maxGap)
  {
    var difference: int := records[i].timestamp as int - records[i - 1].timestamp as int;
    ElapsedIs(records[i - 1].timestamp, records[i].timestamp);
  }

  lemma ElapsedIs(earlier: U64, later: U64)
    ensures var difference: int := later as int - earlier as int;
      Elapsed(earlier, later) == if difference >= 0 then difference else difference + (UINT64_MAX + 1)
  {
  }

  /** Whether a new segment starts at the index. */
  predicate Starts(records: seq<Record>, boundaries: seq<Boundary>, maxGap: int, i: nat)
    requires i < |records|
  {
    i == 0 || i in FeatureResetIndices(boundaries) || Gap(records, maxGap, i)
  }

  /** The start of the segment a record belongs to. */
  function SegmentStart(records: seq<Record>, boundaries: seq<Boundary>, maxGap: int, i: nat): (start: nat)
    requires i < |records|
    ensures start <= i && Starts(records, boundaries, maxGap, start)
    ensures forall j | start < j <= i :: !Starts(records, boundaries, maxGap, j)
  {
    if Starts(records, boundaries, maxGap, i) then i else SegmentStart(records, boundaries, maxGap, i - 1)
  }

  datatype Slice = Slice(start: nat, stop: nat)

  /** Slices tile the records, and each record's segment starts where its slice does. */
  ghost predicate SlicesAreSegments(slices: seq<Slice>, records: seq<Record>, boundaries: seq<Boundary>, maxGap: int, upTo: nat) {
    && upTo <= |records|
    && (forall k | 0 <= k < |slices| :: slices[k].start < slices[k].stop <= upTo)
    && (slices != [] ==> slices[0].start == 0)
    && (forall k | 0 < k < |slices| :: slices[k].start == slices[k - 1].stop)
    && upTo == (if slices == [] then 0 else slices[|slices| - 1].stop)
    && (forall k, i | 0 <= k < |slices| && slices[k].start <= i < slices[k].stop ::
          SegmentStart(records, boundaries, maxGap, i) == slices[k].start)
  }

  method CutPoints(records: seq<Record>, boundaries: seq<Boundary>, maxGap: int) returns (cuts: set<nat>)
    requires records != []
    ensures forall i | 0 <= i < |records| :: i in cuts <==> Starts(records, boundaries, maxGap, i)
    ensures |records| in cuts
  {
    cuts := {0, |records|};
    for b := 0 to |boundaries|
      invariant 0 in cuts && |records| in cuts
      invariant forall i | 0 < i < |records| :: i in cuts <==>
                exists a :: 0 <= a < b && Breaks(boundaries[a]) && boundaries[a].recordIndex == i
    {
      if Breaks(boundaries[b]) {
        cuts := cuts + {boundaries[b].recordIndex};
      }
    }
    assert forall i | 0 < i < |records| :: i in cuts <==> i in FeatureResetIndices(boundaries);
    for index := 0 to |records| - 1
      invariant 0 in cuts && |records| in cuts
      invariant forall i | 0 < i < |records| :: i in cuts <==>
                i in FeatureResetIndices(boundaries) || (i <= index && Gap(records, maxGap, i))
    {
      if Elapsed(records[index].timestamp, records[index + 1].timestamp) > maxGap {
        cuts := cuts + {index + 1};
      }
    }
  }

  /** Between two neighbouring cut points lies one segment. */
  lemma {:induction false} SegmentBetweenCuts(
    records: seq<Record>, boundaries: seq<Boundary>, maxGap: int, start: nat, i: nat)
    requires start <= i < |records| && Starts(records, boundaries, maxGap, start)
    requires forall j | start < j <= i :: !Starts(records, boundaries, maxGap, j)
    ensures SegmentStart(records, boundaries, maxGap, i) == start
    decreases i
  {
    if start < i {
      SegmentBetweenCuts(records, boundaries, maxGap, start, i - 1);
    }
  }

  lemma NextSlice(
    slices: seq<Slice>, records: seq<Record>, boundaries: seq<Boundary>, maxGap: int, start: nat, stop: nat)
    requires SlicesAreSegments(slices, records, boundaries, maxGap, start) && start < stop <= |records|
    requires Starts(records, boundaries, maxGap, start)
    requires forall j | start < j < stop :: !Starts(records, boundaries, maxGap, j)
    ensures SlicesAreSegments(slices + [Slice(start, stop)], records, boundaries, maxGap, stop)
  {
    var all := slices + [Slice(start, stop)];
    assert forall k | 0 <= k < |slices| :: all[k] == slices[k];
    forall i | start <= i < stop ensures SegmentStart(records, boundaries, maxGap, i) == start {
      SegmentBetweenCuts(records, boundaries, maxGap, start, i);
    }
  }

  method ContiguousSlices(records: seq<Record>, boundaries: seq<Boundary>, maxGap: int)
    returns (slices: Option<seq<Slice>>)
    ensures slices == None <==> maxGap <= 0
    ensures slices.Some? ==> SlicesAreSegments(slices.value, records, boundaries, maxGap, |records|)
  {
    if maxGap <= 0 {
      return None;
    }
    if records == [] {
      return Some([]);
    }
    var cuts := CutPoints(records, boundaries, maxGap);
    var found: seq<Slice>, start: nat := [], 0;
    assert SlicesAreSegments([], records, boundaries, maxGap, 0);
    hide SlicesAreSegments, Starts, Gap;
    for point := 1 to |records| + 1
      invariant start < point && (point <= |records| ==> start < |records| && start in cuts)
      invariant point == |records| + 1 ==> start == |records|
      invariant forall j | start < j < point && j < |records| :: j !in cuts
      invariant SlicesAreSegments(found, records, boundaries, maxGap, start)
    {
      if point in cuts {
        NextSlice(found, records, boundaries, maxGap, start, point);
        found := found + [Slice(start, point)];
        start := point;
      }
    }
    return Some(found);
  }

  // ----- the stream

  /** What one accepted tick does to the history: a gap empties it, and only 26 ticks are kept. */
  function Appended(history: seq<Tick>, t: Tick, maxGap: int): seq<Tick> {
    var kept := if history != [] && (t.timestamp < history[|history| - 1].timestamp
                                     || t.timestamp - history[|history| - 1].timestamp > maxGap) then [] else history;
    if |kept| == MAX_HISTORY + 1 then kept[1..] + [t] else kept + [t]
  }

  /** The history after the first k records, with a reset before each listed index. */
  function StreamHistory(records: seq<Record>, resets: set<nat>, maxGap: int, scale: Scale, k: nat): seq<Tick>
    requires k <= |records|
    decreases k
  {
    if k == 0 then []
    else
      var before := StreamHistory(records, resets, maxGap, scale, k - 1);
      Appended(if k - 1 in resets then [] else before, TickOf(records[k - 1], scale), maxGap)
  }

  function Last(ticks: seq<Tick>, n: nat): seq<Tick> {
    if |ticks| <= n then ticks else ticks[|ticks| - n..]
  }

  lemma AppendedAfresh(history: seq<Tick>, t: Tick, maxGap: int)
    requires history == [] || t.timestamp - history[|history| - 1].timestamp > maxGap
    ensures Appended(history, t, maxGap) == [t]
  {
  }

  /** Without a gap the history stays the tail of a growing segment. */
  lemma AppendedToTail(segment: seq<Tick>, t: Tick, maxGap: int)
    requires segment != []
    requires 0 <= t.timestamp - segment[|segment| - 1].timestamp <= maxGap
    ensures Appended(Last(segment, MAX_HISTORY + 1), t, maxGap) == Last(segment + [t], MAX_HISTORY + 1)
  {
    var all, n := segment + [t], |segment|;
    TailEnds(segment, MAX_HISTORY + 1);
    if n > MAX_HISTORY {
      assert segment[n - MAX_HISTORY - 1..][1..] == segment[n - MAX_HISTORY..];
      assert all[n - MAX_HISTORY..] == segment[n - MAX_HISTORY..] + [t];
    }
  }

  lemma TailEnds(segment: seq<Tick>, n: nat)
    requires segment != [] && n > 0
    ensures Last(segment, n) != [] && Last(segment, n)[|Last(segment, n)| - 1] == segment[|segment| - 1]
  {
  }

  /**
   Streaming a validated recording with resets at its boundaries: the history is the last ticks, at
   most 26, of the current segment.
   */
  lemma {:induction false} HistoryIsSegmentTail(
    records: seq<Record>, boundaries: seq<Boundary>, maxGap: int, scale: Scale, k: nat)
    requires ValidRecords(records) && 0 < k <= |records|
    ensures StreamHistory(records, FeatureResetIndices(boundaries), maxGap, scale, k) ==
            Last(Ticks(records, scale)[SegmentStart(records, boundaries, maxGap, k - 1)..k], MAX_HISTORY + 1)
    decreases k
  {
    hide SegmentStart, ValidRecord, Appended, Last, FeatureResetIndices;
    var resets, ticks, i := FeatureResetIndices(boundaries), Ticks(records, scale), k - 1;
    var start := SegmentStart(records, boundaries, maxGap, i);
    if i > 0 {
      HistoryIsSegmentTail(records, boundaries, maxGap, scale, i);
      var earlier := SegmentStart(records, boundaries, maxGap, i - 1);
      TailEnds(ticks[earlier..i], MAX_HISTORY + 1);
    }
    var before := if i in resets then [] else StreamHistory(records, resets, maxGap, scale, i);
    if Starts(records, boundaries, maxGap, i) {
      StartsAt(records, boundaries, maxGap, i);
      assert ticks[i..k] == [ticks[i]];
      AppendedAfresh(before, ticks[i], maxGap);
      OneIsTail(ticks[i]);
    } else {
      SegmentContinues(records, boundaries, maxGap, i);
      assert ticks[start..k] == ticks[start..i] + [ticks[i]];
      assert ticks[start..i][i - start - 1] == ticks[i - 1] && !Gap(records, maxGap, i);
      ElapsedIs(records[i - 1].timestamp, records[i].timestamp);
      assert ticks[i].timestamp == records[i].timestamp && ticks[i - 1].timestamp == records[i - 1].timestamp;
      AppendedToTail(ticks[start..i], ticks[i], maxGap);
    }
  }

  lemma OneIsTail(t: Tick)
    ensures Last([t], MAX_HISTORY + 1) == [t]
  {
  }

  lemma StartsAt(records: seq<Record>, boundaries: seq<Boundary>, maxGap: int, i: nat)
    requires i < |records| && Starts(records, boundaries, maxGap, i)
    ensures SegmentStart(records, boundaries, maxGap, i) == i
  {
  }

  lemma SegmentContinues(records: seq<Record>, boundaries: seq<Boundary>, maxGap: int, i: nat)
    requires 0 < i < |records| && !Starts(records, boundaries, maxGap, i)
    ensures SegmentStart(records, boundaries, maxGap, i) == SegmentStart(records, boundaries, maxGap, i - 1)
  {
  }

  lemma SliceOfSlice<T>(xs: seq<T>, start: nat, stop: nat, from: nat, until: nat)
    requires start <= stop <= |xs| && from <= until <= stop - start
    ensures xs[start..stop][from..until] == xs[start + from..start + until]
  {
    var a, b, part := xs[start..stop][from..until], xs[start + from..start + until], xs[start..stop];
    assert |a| == |b|;
    forall i | 0 <= i < |a| ensures a[i] == b[i] {
      assert a[i] == part[from + i] && part[from + i] == xs[start + from + i];
    }
  }

  lemma TicksOfSlice(records: seq<Record>, scale: Scale, start: nat, stop: nat)
    requires start <= stop <= |records|
    ensures Ticks(records[start..stop], scale) == Ticks(records, scale)[start..stop]
  {
    hide TickOf;
    var part, all := Ticks(records[start..stop], scale), Ticks(records, scale)[start..stop];
    assert |part| == |all|;
    forall i | 0 <= i < |part| ensures part[i] == all[i] {
      assert records[start..stop][i] == records[start + i];
    }
  }

  lemma TicksQuoted(records: seq<Record>, scale: Scale, start: nat, stop: nat)
    requires ValidRecords(records) && start <= stop <= |records|
    ensures Quoted(Ticks(records[start..stop], scale))
  {
    var part := records[start..stop];
    forall i | 0 <= i < |part|
      ensures ValidRecord(part[i])
    {
      assert part[i] == records[start + i];
    }
  }

  /** What the stream emits after record i. */
  function Emitted(records: seq<Record>, resets: set<nat>, maxGap: int, scale: Scale, m: Numerics, i: nat): Option<seq<real>>
    requires i < |records|
  {
    var history := StreamHistory(records, resets, maxGap, scale, i + 1);
    if |history| == MAX_HISTORY + 1 then Some(OnlineRow(history, m)) else None
  }

  /**
   Within every slice the stream emits from the 26th record on, and each emitted row is the offline
   row of that slice at that record.
   */
  lemma StreamMatchesOffline(
    records: seq<Record>, boundaries: seq<Boundary>, maxGap: int, scale: Scale, m: Numerics, slices: seq<Slice>,
    s: nat, i: nat)
    requires ValidRecords(records) && SlicesAreSegments(slices, records, boundaries, maxGap, |records|)
    requires s < |slices| && slices[s].start <= i < slices[s].stop
    ensures var offset, ticks := i - slices[s].start, Ticks(records[slices[s].start..slices[s].stop], scale);
      Quoted(ticks) &&
      Emitted(records, FeatureResetIndices(boundaries), maxGap, scale, m, i) ==
      if offset < MAX_HISTORY then None else Some(OfflineRow(ticks, offset, m))
  {
    hide OnlineRow, OfflineRow, TickOf, StreamHistory, ValidRecords, SegmentStart;
    var start, stop := slices[s].start, slices[s].stop;
    var offset, all, ticks := i - start, Ticks(records, scale), Ticks(records[start..stop], scale);
    HistoryIsSegmentTail(records, boundaries, maxGap, scale, i + 1);
    TicksOfSlice(records, scale, start, stop);
    TicksQuoted(records, scale, start, stop);
    var segment := ticks[..offset + 1];
    assert all[start..i + 1] == segment by { SliceOfSlice(all, start, stop, 0, offset + 1); }
    if offset >= MAX_HISTORY {
      RowsAgree(ticks, offset, m);
      assert segment[offset - 25..] == ticks[offset - 25..offset + 1] by { SliceOfSlice(ticks, 0, offset + 1, offset - 25, offset + 1); }
    }
  }

  // ----- the mutable builder

  class OnlineFeatureBuilder {
    const scale: Scale
    const maxGap: int
    const numerics: Numerics
    var history: seq<Tick>
    var resetCount: nat

    /** The history is a queue of bounded length. */
    ghost predicate Valid()
      reads this
    {
      |history| <= MAX_HISTORY + 1
    }

    constructor (scale: Scale, maxGap: int, numerics: Numerics)
      requires maxGap > 0
      ensures this.scale == scale && this.maxGap == maxGap && this.numerics == numerics
      ensures Valid() && history == [] && resetCount == 0
    {
      this.scale, this.maxGap, this.numerics, history, resetCount := scale, maxGap, numerics, [], 0;
    }

    method Reset()
      modifies this
      ensures history == [] && resetCount == old(resetCount) + if old(history) == [] then 0 else 1
    {
      if history != [] {
        resetCount := resetCount + 1;
      }
      history := [];
    }

    /** A record with an impossible field leaves the history alone and emits nothing. */
    method Update(r: Record) returns (features: Option<seq<real>>)
      requires Valid()
      modifies this
      ensures Valid()
      ensures r.timestamp == 0 || r.bid <= 0.0 || r.ask <= 0.0 || r.bid > r.ask
              || r.bidVolume < 0 || r.askVolume < 0 || r.bidVolume > 0xFFFF_FFFF || r.askVolume > 0xFFFF_FFFF
              ==> history == old(history) && features == None
      ensures ValidRecord(r) ==> history == Appended(old(history), TickOf(r, scale), maxGap)
      ensures ValidRecord(r) ==>
        features == if |history| == MAX_HISTORY + 1 then Some(OnlineRow(history, numerics)) else None
    {
      hide LogReturn, RowWith, Volatility;
      if r.timestamp <= 0 || r.bid <= 0.0 || r.ask <= 0.0 || r.bid > r.ask
         || r.bidVolume < 0 || r.askVolume < 0 || r.bidVolume > UINT32_MAX || r.askVolume > UINT32_MAX {
        return None;
      }
      var tick := TickOf(r, scale);
      if history != [] {
        var previous := history[|history| - 1].timestamp;
        if tick.timestamp < previous || tick.timestamp - previous > maxGap {
          Reset();
        }
      }
      history := if |history| == MAX_HISTORY + 1 then history[1..] + [tick] else history + [tick];
      if |history| < MAX_HISTORY + 1 {
        return None;
      }
      var recent: seq<real> := [];
      for index := |history| - VOLATILITY_WINDOW to |history|
        invariant |recent| == index - 6
        invariant forall j | 0 <= j < index - 6 :: recent[j] == LogReturn(history[j + 6], history[j + 5], numerics)
      {
        recent := recent + [LogReturn(history[index], history[index - 1], numerics)];
      }
      assert recent == RecentReturns(history, numerics);
      return Some(RowWith(history, Volatility(recent, numerics), numerics));
    }
  }

  /** The replay loop: a reset before every listed index, then one update. */
  method StreamAll(builder: OnlineFeatureBuilder, records: seq<Record>, resets: set<nat>) returns (rows: seq<Option<seq<real>>>)
    requires ValidRecords(records) && builder.history == []
    modifies builder
    ensures |rows| == |records|
    ensures builder.history == StreamHistory(records, resets, builder.maxGap, builder.scale, |records|)
    ensures forall i | 0 <= i < |records| ::
      rows[i] == Emitted(records, resets, builder.maxGap, builder.scale, builder.numerics, i)
  {
    hide OnlineRow, Appended, TickOf, ValidRecord;
    rows := [];
    assert StreamHistory(records, resets, builder.maxGap, builder.scale, 0) == [];
    for i := 0 to |records|
      invariant |rows| == i && builder.Valid()
      invariant builder.history == StreamHistory(records, resets, builder.maxGap, builder.scale, i)
      invariant forall j | 0 <= j < i ::
        rows[j] == Emitted(records, resets, builder.maxGap, builder.scale, builder.numerics, j)
    {
      if i in resets {
        builder.Reset();
      }
      var features := builder.Update(records[i]);
      rows := rows + [features];
    }
  }
}
