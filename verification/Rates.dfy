/** Rates of recurring events with exponential decay, over idealised real numbers. The decay function is a
    parameter: all that is used of `exp(-x)` are its laws. */
module Rates {
  import Tables

  /** Decay over a time is the product of the decays over its parts */
  ghost predicate Splits(decay: real -> real, x: real, y: real) {
    decay(x + y) == decay(x) * decay(y)
  }

  ghost predicate IsFraction(decay: real -> real, x: real) {
    0.0 < decay(x) && (x >= 0.0 ==> decay(x) <= 1.0)
  }

  /** The laws of exponential decay */
  ghost predicate IsDecay(decay: real -> real) {
    && decay(0.0) == 1.0
    && (forall x: real, y: real :: Splits(decay, x, y))
    && (forall x: real :: IsFraction(decay, x))
  }

  /** A time span in windows */
  function Age(now: real, t: real, window: real): real
    requires window > 0.0
  {
    (now - t) / window
  }

  lemma AgesAdd(now: real, then_: real, t: real, window: real)
    requires window > 0.0
    ensures Age(now, t, window) == Age(then_, t, window) + Age(now, then_, window)
    ensures Age(now, now, window) == 0.0
    ensures now >= then_ ==> Age(now, then_, window) >= 0.0
  {
  }

  /** What the events of the past still weigh at the given time */
  ghost function Weight(decay: real -> real, window: real, now: real, ticks: seq<real>): real
    requires window > 0.0
  {
    if ticks == [] then 0.0
    else Weight(decay, window, now, ticks[..|ticks| - 1]) + decay(Age(now, ticks[|ticks| - 1], window))
  }

  lemma LaterDecay(decay: real -> real, window: real, then_: real, now: real, t: real)
    requires IsDecay(decay) && window > 0.0
    ensures decay(Age(now, t, window)) == decay(Age(then_, t, window)) * decay(Age(now, then_, window))
  {
    AgesAdd(now, then_, t, window);
    assert Splits(decay, Age(then_, t, window), Age(now, then_, window));
  }

  /** Weights decay as a whole */
  lemma {:induction false} WeightDecays(decay: real -> real, window: real, then_: real, now: real, ticks: seq<real>)
    requires IsDecay(decay) && window > 0.0
    ensures Weight(decay, window, now, ticks)
            == Weight(decay, window, then_, ticks) * decay(Age(now, then_, window))
  {
    if ticks != [] {
      var front, last := ticks[..|ticks| - 1], ticks[|ticks| - 1];
      WeightDecays(decay, window, then_, now, front);
      LaterDecay(decay, window, then_, now, last);
      Distribute(Weight(decay, window, then_, front), decay(Age(then_, last, window)), decay(Age(now, then_, window)));
    }
  }

  lemma WeightSnoc(decay: real -> real, window: real, now: real, ticks: seq<real>)
    requires IsDecay(decay) && window > 0.0
    ensures Weight(decay, window, now, ticks + [now]) == Weight(decay, window, now, ticks) + 1.0
  {
    assert (ticks + [now])[..|ticks|] == ticks;
    AgesAdd(now, now, now, window);
  }

  lemma Distribute(a: real, b: real, c: real)
    ensures (a + b) * c == a * c + b * c
  {
  }

  type Window = r: real | r > 0.0 witness 1.0

  /** A rate as a value */
  datatype RateState = RateState(count: real, maxCount: real, window: Window, updatedAt: real) {
    function Ticked(decay: real -> real, now: real): RateState {
      this.(count := count * decay((now - updatedAt) / window) + 1.0, updatedAt := now)
    }

    predicate IsUnderLimit() {
      count <= maxCount
    }

    /** The count is the decayed weight of the full history */
    ghost predicate IsHistory(decay: real -> real, ticks: seq<real>) {
      count == Weight(decay, window, updatedAt, ticks)
    }
  }

  /** The incremental update keeps up with the full history, even if the clock jumps back */
  lemma TickKeepsHistory(decay: real -> real, r: RateState, ticks: seq<real>, now: real)
    requires IsDecay(decay) && r.IsHistory(decay, ticks)
    ensures r.Ticked(decay, now).IsHistory(decay, ticks + [now])
  {
    WeightDecays(decay, r.window, r.updatedAt, now, ticks);
    WeightSnoc(decay, r.window, now, ticks);
  }

  /** A tick of each rate, with readings of the clock from the given one on */
  function TickedAll(decay: real -> real, clock: nat -> real, from: nat, rates: seq<RateState>): (r: seq<RateState>)
    ensures |r| == |rates|
    decreases |rates|
  {
    if rates == [] then []
    else [rates[0].Ticked(decay, clock(from))] + TickedAll(decay, clock, from + 1, rates[1..])
  }

  lemma {:induction false} TickedAt(decay: real -> real, clock: nat -> real, from: nat, rates: seq<RateState>, i: nat)
    requires i < |rates|
    ensures TickedAll(decay, clock, from, rates)[i] == rates[i].Ticked(decay, clock(from + i))
    decreases i
  {
    if i > 0 {
      TickedAt(decay, clock, from + 1, rates[1..], i - 1);
    }
  }

  lemma TickedNext(decay: real -> real, clock: nat -> real, from: nat, rates: seq<RateState>, i: nat)
    requires i < |rates|
    ensures TickedAll(decay, clock, from + i, rates[i..])
            == [rates[i].Ticked(decay, clock(from + i))] + TickedAll(decay, clock, from + (i + 1), rates[i + 1..])
  {
    assert rates[i..][0] == rates[i] && rates[i..][1..] == rates[i + 1..];
  }

  method TickAll(decay: real -> real, clock: nat -> real, from: nat, rates: seq<RateState>) returns (r: seq<RateState>)
    ensures r == TickedAll(decay, clock, from, rates)
  {
    r := [];
    ghost var goal := TickedAll(decay, clock, from, rates);
    assert rates[0..] == rates;
    for i := 0 to |rates|
      invariant r + TickedAll(decay, clock, from + i, rates[i..]) == goal
    {
      var ticked := rates[i].Ticked(decay, clock(from + i));
      TickedNext(decay, clock, from, rates, i);
      Tables.Associate(r, [ticked], TickedAll(decay, clock, from + (i + 1), rates[i + 1..]));
      r := r + [ticked];
    }
  }

  predicate AllUnderLimit(rates: seq<RateState>) {
    forall i :: 0 <= i < |rates| ==> rates[i].IsUnderLimit()
  }

  class Rate {
    var count: real
    const maxCount: real
    const window: Window
    var updatedAt: real
    /** All events so far */
    ghost var ticks: seq<real>

    function Value(): RateState
      reads this
    {
      RateState(count, maxCount, window, updatedAt)
    }

    ghost predicate Valid(decay: real -> real)
      reads this
    {
      Value().IsHistory(decay, ticks)
    }

    constructor (window: Window, maxEventsPerWindow: real, now: real, ghost decay: real -> real)
      ensures Valid(decay) && ticks == []
      ensures this.window == window && maxCount == maxEventsPerWindow
    {
      count := 0.0;
      maxCount := maxEventsPerWindow;
      this.window := window;
      updatedAt := now;
      ticks := [];
    }

    /** The incremental update agrees with the sum over the full history, even if the clock jumps back */
    method Tick(now: real, decay: real -> real)
      requires IsDecay(decay) && Valid(decay)
      modifies this
      ensures Valid(decay) && ticks == old(ticks) + [now] && updatedAt == now
      ensures Value() == old(Value()).Ticked(decay, now)
    {
      TickKeepsHistory(decay, Value(), ticks, now);
      var elapsed := now - updatedAt;
      count := count * decay(elapsed / window) + 1.0;
      updatedAt := now;
      ticks := ticks + [now];
    }

    predicate IsUnderLimit()
      reads this
    {
      count <= maxCount
    }
  }

  /** Successive ticks are at least `gap` apart */
  ghost predicate Spaced(gap: real, ticks: seq<real>) {
    forall i :: 0 < i < |ticks| ==> ticks[i] - ticks[i - 1] >= gap
  }

  lemma DecayOfGap(decay: real -> real, window: real, gap: real, t: real, now: real)
    requires IsDecay(decay) && window > 0.0 && now - t >= gap
    ensures 0.0 < decay(Age(now, t, window)) <= decay(Age(gap, 0.0, window))
  {
    var more := Age(now - t, gap, window);
    AgesAdd(now - t, gap, 0.0, window);
    assert Age(now, t, window) == Age(now - t, 0.0, window);
    var least := Age(gap, 0.0, window);
    assert least + more == Age(now, t, window);
    assert Splits(decay, least, more);
    assert decay(Age(now, t, window)) == decay(least) * decay(more);
    assert IsFraction(decay, Age(gap, 0.0, window)) && IsFraction(decay, more);
    assert IsFraction(decay, Age(now, t, window));
    Shrinks(decay(least), decay(more), decay(Age(now, t, window)));
  }

  lemma Shrinks(a: real, b: real, product: real)
    requires a >= 0.0 && b <= 1.0 && product == a * b
    ensures product <= a
  {
  }

  lemma ProductMonotone(a: real, b: real, c: real, d: real)
    requires 0.0 <= a <= c && 0.0 <= b <= d
    ensures a * b <= c * d
  {
    assert a * b <= c * b;
    assert c * b <= c * d;
  }

  lemma {:induction false} WeightIsNonNegative(decay: real -> real, window: real, now: real, ticks: seq<real>)
    requires IsDecay(decay) && window > 0.0
    ensures Weight(decay, window, now, ticks) >= 0.0
  {
    if ticks != [] {
      WeightIsNonNegative(decay, window, now, ticks[..|ticks| - 1]);
      assert IsFraction(decay, Age(now, ticks[|ticks| - 1], window));
    }
  }

  /** The fixed point of `x = q x + 1` */
  lemma GeometricBound(q: real, x: real)
    requires 0.0 <= q < 1.0 && x <= 1.0 / (1.0 - q)
    ensures q * x + 1.0 <= 1.0 / (1.0 - q)
  {
    var bound := 1.0 / (1.0 - q);
    assert bound * (1.0 - q) == 1.0;
    assert q * x <= q * bound;
  }

  /** Just after the last of any number of events at least `gap` apart, their weight is bounded */
  lemma {:induction false} WeightIsBounded(decay: real -> real, window: real, gap: real, ticks: seq<real>)
    requires IsDecay(decay) && window > 0.0 && ticks != [] && Spaced(gap, ticks)
    requires decay(Age(gap, 0.0, window)) < 1.0
    ensures Weight(decay, window, ticks[|ticks| - 1], ticks) <= 1.0 / (1.0 - decay(Age(gap, 0.0, window)))
  {
    var q := decay(Age(gap, 0.0, window));
    var front, last := ticks[..|ticks| - 1], ticks[|ticks| - 1];
    assert IsFraction(decay, Age(gap, 0.0, window));
    assert ticks == front + [last];
    WeightSnoc(decay, window, last, front);
    if front == [] {
      GeometricBound(q, 0.0);
    } else {
      WeightIsBounded(decay, window, gap, front);
      WeightStep(decay, window, gap, front, last);
      GeometricBound(q, Weight(decay, window, front[|front| - 1], front));
    }
  }

  lemma WeightStep(decay: real -> real, window: real, gap: real, front: seq<real>, last: real)
    requires IsDecay(decay) && window > 0.0 && front != [] && last - front[|front| - 1] >= gap
    ensures Weight(decay, window, last, front)
            <= decay(Age(gap, 0.0, window)) * Weight(decay, window, front[|front| - 1], front)
  {
    var previous := front[|front| - 1];
    WeightDecays(decay, window, previous, last, front);
    DecayOfGap(decay, window, gap, previous, last);
    WeightIsNonNegative(decay, window, previous, front);
    ProductMonotone(decay(Age(last, previous, window)), Weight(decay, window, previous, front),
                    decay(Age(gap, 0.0, window)), Weight(decay, window, previous, front));
  }

  /** A rate whose limit allows for one event every `gap` is never over its limit if events are that far apart */
  lemma SpacedEventsStayUnderLimit(r: Rate, decay: real -> real, gap: real)
    requires IsDecay(decay) && r.Valid(decay) && r.ticks != [] && Spaced(gap, r.ticks)
    requires r.updatedAt == r.ticks[|r.ticks| - 1]
    requires decay(Age(gap, 0.0, r.window)) < 1.0 && 1.0 / (1.0 - decay(Age(gap, 0.0, r.window))) <= r.maxCount
    ensures r.IsUnderLimit()
  {
    WeightIsBounded(decay, r.window, gap, r.ticks);
  }

  // ---- The count is as of the last event ----

  /** What the events weigh at any time is the count, decayed since the last of them */
  lemma WeightAt(decay: real -> real, r: RateState, ticks: seq<real>, now: real)
    requires IsDecay(decay) && r.IsHistory(decay, ticks)
    ensures Weight(decay, r.window, now, ticks) == r.count * decay(Age(now, r.updatedAt, r.window))
  {
    WeightDecays(decay, r.window, r.updatedAt, now, ticks);
  }

  /** The limit is compared with the count as of the last event. So events that are light enough by now count as too many
      exactly if they were too many then. */
  lemma OverLimitThoughLightIff(decay: real -> real, r: RateState, ticks: seq<real>, now: real)
    requires IsDecay(decay) && r.IsHistory(decay, ticks)
    ensures !r.IsUnderLimit() && Weight(decay, r.window, now, ticks) <= r.maxCount
            <==> r.count * decay(Age(now, r.updatedAt, r.window)) <= r.maxCount < r.count
  {
    WeightAt(decay, r, ticks, now);
  }

  /** Events that are too many by now were too many at the last of them */
  lemma HeavyIsOverLimit(decay: real -> real, r: RateState, ticks: seq<real>, now: real)
    requires IsDecay(decay) && r.IsHistory(decay, ticks) && now >= r.updatedAt
    requires Weight(decay, r.window, now, ticks) > r.maxCount
    ensures !r.IsUnderLimit()
  {
    WeightAt(decay, r, ticks, now);
    WeightIsNonNegative(decay, r.window, r.updatedAt, ticks);
    AgesAdd(now, r.updatedAt, r.updatedAt, r.window);
    assert IsFraction(decay, Age(now, r.updatedAt, r.window));
    Shrinks(r.count, decay(Age(now, r.updatedAt, r.window)), Weight(decay, r.window, now, ticks));
  }

  /** Three events at once, where one is allowed, are over the limit at the next request, however late that comes */
  lemma BurstStaysOverLimit(decay: real -> real, now: real)
    requires IsDecay(decay) && decay(Age(now, 0.0, 1.0)) <= 1.0 / 3.0
    ensures var r, ticks := RateState(3.0, 1.0, 1.0, 0.0), [0.0, 0.0, 0.0];
            && r.IsHistory(decay, ticks) && !r.IsUnderLimit()
            && Weight(decay, r.window, now, ticks) <= r.maxCount
  {
    var r, ticks := RateState(3.0, 1.0, 1.0, 0.0), [0.0, 0.0, 0.0];
    BurstWeight(decay, r.window, r.updatedAt, ticks);
    WeightAt(decay, r, ticks, now);
  }

  lemma {:induction false} BurstWeight(decay: real -> real, window: real, now: real, ticks: seq<real>)
    requires IsDecay(decay) && window > 0.0 && forall i :: 0 <= i < |ticks| ==> ticks[i] == now
    ensures Weight(decay, window, now, ticks) == |ticks| as real
  {
    if ticks != [] {
      BurstWeight(decay, window, now, ticks[..|ticks| - 1]);
      AgesAdd(now, now, now, window);
    }
  }

  /** In a burst all events count in full: the limit is kept exactly by as many as it says */
  lemma BurstLimitIff(r: Rate, decay: real -> real)
    requires IsDecay(decay) && r.Valid(decay)
    requires forall i :: 0 <= i < |r.ticks| ==> r.ticks[i] == r.updatedAt
    ensures r.IsUnderLimit() <==> |r.ticks| as real <= r.maxCount
  {
    BurstWeight(decay, r.window, r.updatedAt, r.ticks);
  }

  class RateCollection {
    const rates: seq<Rate>

    ghost predicate Valid(decay: real -> real)
      reads this, rates
    {
      && (forall i, j :: 0 <= i < j < |rates| ==> rates[i] != rates[j])
      && forall i :: 0 <= i < |rates| ==> rates[i].Valid(decay)
    }

    constructor (rates: seq<Rate>)
      ensures this.rates == rates
    {
      this.rates := rates;
    }

    /** Every rate is ticked, each reading the clock for itself */
    method Tick(clock: nat -> real, decay: real -> real)
      requires IsDecay(decay) && Valid(decay)
      modifies rates
      ensures Valid(decay)
      ensures forall i: nat :: i < |rates| ==> rates[i].ticks == old(rates[i].ticks) + [clock(i)]
      ensures forall i: nat :: i < |rates| ==> rates[i].Value() == old(rates[i].Value()).Ticked(decay, clock(i))
    {
      for i := 0 to |rates|
        invariant Valid(decay)
        invariant forall j: nat :: j < i ==>
                    && rates[j].ticks == old(rates[j].ticks) + [clock(j)]
                    && rates[j].Value() == old(rates[j].Value()).Ticked(decay, clock(j))
        invariant forall j: nat :: i <= j < |rates| ==> unchanged(rates[j])
      {
        rates[i].Tick(clock(i), decay);
      }
    }

    predicate IsUnderLimit()
      reads this, rates
    {
      forall i :: 0 <= i < |rates| ==> rates[i].IsUnderLimit()
    }
  }
}
