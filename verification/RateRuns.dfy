/** The limits on peer lists over whole runs of the tracker: a list is withheld exactly when the decayed weight of all
    the times the user asked for such a list before, as of the last of them, is over a limit. */
module RateRuns {
  import opened Updates
  import opened Rates
  import opened PeerLists
  import opened Tracker
  import opened TrackerLedgers

  datatype ListKind = SeedList | LeechList

  function RatesFor(list: ListKind, r: UserRates): seq<RateState> {
    match list case SeedList => r.seed case LeechList => r.leech
  }

  predicate IsRequested(list: ListKind, s: Selection) {
    match list case SeedList => s.hasRequestedSeeds case LeechList => s.hasRequestedLeeches
  }

  predicate IsWithheld(list: ListKind, s: Selection) {
    match list case SeedList => s.isOverSeedLimit case LeechList => s.isOverLeechLimit
  }

  /** Which reading of the clock the rate takes */
  function ReadingOf(list: ListKind, r: UserRates, i: nat): nat {
    match list case SeedList => i case LeechList => |r.seed| + i
  }

  // ---- The rates of one user, seen from the whole state ----

  predicate IsCallOf<K, V>(ev: TrackerEvent<K, V>, u: UserId) {
    ev.Called? && ev.how.Carried? && ev.how.a.userId == u
  }

  /** All that an event does to the rates */
  ghost predicate RatesFollow<K, V>(decay: real -> real, st: State, ev: TrackerEvent<K, V>, st': State) {
    st'.rates
    == if ev.Called? && ev.how.Carried?
       then RatesAfter(decay, ev.call.clock, st.rates, st.users, ev.how.a.userId, ev.how.v.selection)
       else st.rates
  }

  lemma FollowsInRates<K(!new), V(!new), R(!new)>(
      x: Setup, f: Feed<K, V, R>, s: System<K, V, R>, ev: TrackerEvent<K, V>, s': System<K, V, R>)
    requires Follows(x, f, s, ev, s')
    ensures RatesFollow(x.decay, s.st, ev, s'.st)
  {
    match ev
    case Called(call, r, how) => OutcomeInRates(x, s.st, call, r, how, s'.st);
    case _ =>
  }

  /** When the event ticks the user's rate, if it does */
  function TickOf<K, V>(list: ListKind, u: UserId, i: nat, st: State, ev: TrackerEvent<K, V>): (r: seq<real>)
    ensures |r| <= 1
  {
    if IsCallOf(ev, u) && u in st.users && IsRequested(list, ev.how.v.selection)
    then [ev.call.clock(ReadingOf(list, RatesOf(st.rates, u), i))] else []
  }

  function Advanced(decay: real -> real, r: RateState, ticks: seq<real>): RateState {
    if ticks == [] then r else r.Ticked(decay, ticks[0])
  }

  lemma RateAfterEvent<K, V>(
      decay: real -> real, st: State, ev: TrackerEvent<K, V>, st': State, list: ListKind, u: UserId)
    requires RatesFollow(decay, st, ev, st') && u in st.rates
    ensures u in st'.rates && |RatesFor(list, st'.rates[u])| == |RatesFor(list, st.rates[u])|
    ensures forall i :: 0 <= i < |RatesFor(list, st.rates[u])| ==>
              RatesFor(list, st'.rates[u])[i]
              == Advanced(decay, RatesFor(list, st.rates[u])[i], TickOf(list, u, i, st, ev))
  {
    var r := RatesFor(list, st.rates[u]);
    if IsCallOf(ev, u) && u in st.users && IsRequested(list, ev.how.v.selection) {
      var from := ReadingOf(list, st.rates[u], 0);
      assert RatesFor(list, st'.rates[u]) == TickedAll(decay, ev.call.clock, from, r);
      forall i | 0 <= i < |r|
        ensures RatesFor(list, st'.rates[u])[i] == Advanced(decay, r[i], TickOf(list, u, i, st, ev))
      {
        TickedAt(decay, ev.call.clock, from, r, i);
      }
    } else {
      assert RatesFor(list, st'.rates[u]) == r;
    }
  }

  /** The count is the weight of these ticks, and the last one is when it was updated */
  ghost predicate HasTicked(decay: real -> real, r: RateState, ticks: seq<real>) {
    r.IsHistory(decay, ticks) && (ticks != [] ==> r.updatedAt == ticks[|ticks| - 1])
  }

  lemma AdvancedHasTicked(decay: real -> real, r: RateState, before: seq<real>, ticks: seq<real>)
    requires IsDecay(decay) && HasTicked(decay, r, before) && |ticks| <= 1
    ensures HasTicked(decay, Advanced(decay, r, ticks), before + ticks)
  {
    if ticks == [] {
      assert before + ticks == before;
    } else {
      assert ticks == [ticks[0]];
      TickKeepsHistory(decay, r, before, ticks[0]);
    }
  }

  predicate IsSameLimit(r: RateState, s: RateState) {
    r.maxCount == s.maxCount && r.window == s.window
  }

  /** Each of the rates has ticked at the times listed for it */
  ghost predicate HaveTicked(decay: real -> real, rates: seq<RateState>, ticks: seq<seq<real>>) {
    |ticks| == |rates| && forall i :: 0 <= i < |rates| ==> HasTicked(decay, rates[i], ticks[i])
  }

  ghost predicate AreSameLimits(rates: seq<RateState>, others: seq<RateState>) {
    |rates| == |others| && forall i :: 0 <= i < |rates| ==> IsSameLimit(rates[i], others[i])
  }

  /** The times so far, and those that the event adds */
  ghost function TicksAfter<K, V>(list: ListKind, u: UserId, st: State, ev: TrackerEvent<K, V>, before: seq<seq<real>>)
    : (r: seq<seq<real>>)
    ensures |r| == |before|
  {
    seq(|before|, i requires 0 <= i < |before| => before[i] + TickOf(list, u, i, st, ev))
  }

  lemma EventTicks<K, V>(
      decay: real -> real, st: State, ev: TrackerEvent<K, V>, st': State, list: ListKind, u: UserId,
      before: seq<seq<real>>)
    requires IsDecay(decay) && RatesFollow(decay, st, ev, st') && u in st.rates
    requires HaveTicked(decay, RatesFor(list, st.rates[u]), before)
    ensures u in st'.rates && AreSameLimits(RatesFor(list, st'.rates[u]), RatesFor(list, st.rates[u]))
    ensures HaveTicked(decay, RatesFor(list, st'.rates[u]), TicksAfter(list, u, st, ev, before))
  {
    RateAfterEvent(decay, st, ev, st', list, u);
    forall i | 0 <= i < |before|
      ensures HasTicked(decay, RatesFor(list, st'.rates[u])[i], TicksAfter(list, u, st, ev, before)[i])
    {
      AdvancedHasTicked(decay, RatesFor(list, st.rates[u])[i], before[i], TickOf(list, u, i, st, ev));
    }
  }

  // ---- Whole runs ----

  /** The times at which the user's rates ticked, after a run */
  ghost function AllTicks<K, V, R>(
      list: ListKind, u: UserId, before: seq<seq<real>>, states: seq<System<K, V, R>>, evs: seq<TrackerEvent<K, V>>)
    : (r: seq<seq<real>>)
    requires |states| == |evs| + 1
    ensures |r| == |before|
    decreases |evs|
  {
    if evs == [] then before
    else AllTicks(list, u, TicksAfter(list, u, states[0].st, evs[0], before), states[1..], evs[1..])
  }

  lemma RunStep<K(!new), V(!new), R(!new)>(
      x: Setup, f: Feed<K, V, R>, states: seq<System<K, V, R>>, evs: seq<TrackerEvent<K, V>>)
    requires IsRun(x, f, states, evs) && evs != []
    ensures RatesFollow(x.decay, states[0].st, evs[0], states[1].st) && IsRun(x, f, states[1..], evs[1..])
  {
    RunTail(x, f, states, evs);
    FollowsInRates(x, f, states[0], evs[0], states[1]);
  }

  /** In every run, the count of each rate is the decayed weight of all the times the user asked for such a list */
  lemma {:induction false} CountsAreHistories<K(!new), V(!new), R(!new)>(
      x: Setup, f: Feed<K, V, R>, states: seq<System<K, V, R>>, evs: seq<TrackerEvent<K, V>>, list: ListKind, u: UserId,
      before: seq<seq<real>>)
    requires IsDecay(x.decay) && IsRun(x, f, states, evs)
    requires u in states[0].st.rates && HaveTicked(x.decay, RatesFor(list, states[0].st.rates[u]), before)
    ensures u in states[|evs|].st.rates
    ensures var rates := RatesFor(list, states[|evs|].st.rates[u]);
            && AreSameLimits(rates, RatesFor(list, states[0].st.rates[u]))
            && HaveTicked(x.decay, rates, AllTicks(list, u, before, states, evs))
    decreases |evs|
  {
    if evs != [] {
      RunStep(x, f, states, evs);
      EventTicks(x.decay, states[0].st, evs[0], states[1].st, list, u, before);
      CountsAreHistories(x, f, states[1..], evs[1..], list, u, TicksAfter(list, u, states[0].st, evs[0], before));
    }
  }

  /** The call is carried out in this state */
  ghost predicate IsCarried<K(!new), V(!new)>(x: Setup, st: State, ev: TrackerEvent<K, V>, u: UserId) {
    IsCallOf(ev, u) && exists st' :: IsOutcome(x, st, ev.call, ev.r, ev.how, st')
  }

  lemma WithheldNow<K(!new), V(!new)>(x: Setup, st: State, ev: TrackerEvent<K, V>, u: UserId, list: ListKind)
    requires IsCarried(x, st, ev, u) && u in st.rates
    ensures IsWithheld(list, ev.how.v.selection)
            <==> IsRequested(list, ev.how.v.selection) && !AllUnderLimit(RatesFor(list, st.rates[u]))
  {
    var st' :| IsOutcome(x, st, ev.call, ev.r, ev.how, st');
    OutcomeInLists(x, st, ev.call, ev.r, ev.how, st');
  }

  /** The times at which one of the rates ticked weighed more than it allows, as of the last of them */
  ghost predicate WasTooOften(decay: real -> real, rates: seq<RateState>, ticks: seq<seq<real>>)
    requires |ticks| == |rates|
  {
    exists i :: 0 <= i < |rates| && Weight(decay, rates[i].window, rates[i].updatedAt, ticks[i]) > rates[i].maxCount
  }

  lemma TooOftenIff(decay: real -> real, rates: seq<RateState>, ticks: seq<seq<real>>)
    requires HaveTicked(decay, rates, ticks)
    ensures WasTooOften(decay, rates, ticks) <==> !AllUnderLimit(rates)
  {
    if i :| 0 <= i < |rates| && !rates[i].IsUnderLimit() {
      assert Weight(decay, rates[i].window, rates[i].updatedAt, ticks[i]) > rates[i].maxCount;
    }
  }

  /** After any run, a list that the user asks for is withheld if and only if the decayed weight of the user's earlier
      requests for such lists was over one of the limits at the last of them. How long ago that was does not matter. */
  lemma WithheldIff<K(!new), V(!new), R(!new)>(
      x: Setup, f: Feed<K, V, R>, states: seq<System<K, V, R>>, evs: seq<TrackerEvent<K, V>>, ev: TrackerEvent<K, V>,
      list: ListKind, u: UserId, before: seq<seq<real>>)
    requires IsDecay(x.decay) && IsRun(x, f, states, evs) && IsCarried(x, states[|evs|].st, ev, u)
    requires u in states[0].st.rates && HaveTicked(x.decay, RatesFor(list, states[0].st.rates[u]), before)
    ensures u in states[|evs|].st.rates && |RatesFor(list, states[|evs|].st.rates[u])| == |before|
    ensures IsWithheld(list, ev.how.v.selection)
            <==> && IsRequested(list, ev.how.v.selection)
                 && WasTooOften(x.decay, RatesFor(list, states[|evs|].st.rates[u]),
                               AllTicks(list, u, before, states, evs))
  {
    CountsAreHistories(x, f, states, evs, list, u, before);
    WithheldNow(x, states[|evs|].st, ev, u, list);
    TooOftenIff(x.decay, RatesFor(list, states[|evs|].st.rates[u]), AllTicks(list, u, before, states, evs));
  }

  /** The times weigh more than one of the rates allows, as of now */
  ghost predicate IsTooOften(decay: real -> real, rates: seq<RateState>, ticks: seq<seq<real>>, now: real)
    requires |ticks| == |rates|
  {
    exists i :: 0 <= i < |rates| && Weight(decay, rates[i].window, now, ticks[i]) > rates[i].maxCount
  }

  /** Some count is over its limit, and all of them would be within it once decayed until now */
  ghost predicate IsStale(decay: real -> real, rates: seq<RateState>, now: real) {
    && (exists i :: 0 <= i < |rates| && rates[i].count > rates[i].maxCount)
    && forall i :: 0 <= i < |rates| ==>
         rates[i].count * decay(Age(now, rates[i].updatedAt, rates[i].window)) <= rates[i].maxCount
  }

  lemma StaleIff(decay: real -> real, rates: seq<RateState>, ticks: seq<seq<real>>, now: real)
    requires IsDecay(decay) && HaveTicked(decay, rates, ticks)
    ensures IsStale(decay, rates, now) <==> WasTooOften(decay, rates, ticks) && !IsTooOften(decay, rates, ticks, now)
  {
    TooOftenIff(decay, rates, ticks);
    forall i | 0 <= i < |rates|
      ensures Weight(decay, rates[i].window, now, ticks[i])
              == rates[i].count * decay(Age(now, rates[i].updatedAt, rates[i].window))
    {
      assert HasTicked(decay, rates[i], ticks[i]);
      WeightAt(decay, rates[i], ticks[i], now);
    }
    assert AllUnderLimit(rates) <==> forall i :: 0 <= i < |rates| ==> rates[i].count <= rates[i].maxCount;
  }

  lemma TooOftenStays(decay: real -> real, rates: seq<RateState>, ticks: seq<seq<real>>, now: real)
    requires IsDecay(decay) && HaveTicked(decay, rates, ticks) && IsTooOften(decay, rates, ticks, now)
    requires forall i :: 0 <= i < |rates| ==> rates[i].updatedAt <= now
    ensures WasTooOften(decay, rates, ticks)
  {
    var i :| 0 <= i < |rates| && Weight(decay, rates[i].window, now, ticks[i]) > rates[i].maxCount;
    assert HasTicked(decay, rates[i], ticks[i]);
    HeavyIsOverLimit(decay, rates[i], ticks[i], now);
    TooOftenIff(decay, rates, ticks);
  }

  /** Against a limit on the weight as of now, the tracker errs on one side only, and exactly so far: it withholds every
      list that such a limit would, and those that are asked for while the user's counts are stale. */
  lemma WithheldThoughLightIff<K(!new), V(!new), R(!new)>(
      x: Setup, f: Feed<K, V, R>, states: seq<System<K, V, R>>, evs: seq<TrackerEvent<K, V>>, ev: TrackerEvent<K, V>,
      list: ListKind, u: UserId, before: seq<seq<real>>, now: real)
    requires IsDecay(x.decay) && IsRun(x, f, states, evs) && IsCarried(x, states[|evs|].st, ev, u)
    requires u in states[0].st.rates && HaveTicked(x.decay, RatesFor(list, states[0].st.rates[u]), before)
    ensures u in states[|evs|].st.rates && |RatesFor(list, states[|evs|].st.rates[u])| == |before|
    ensures var rates, ticks := RatesFor(list, states[|evs|].st.rates[u]), AllTicks(list, u, before, states, evs);
            && (IsWithheld(list, ev.how.v.selection) && !IsTooOften(x.decay, rates, ticks, now)
                <==> IsRequested(list, ev.how.v.selection) && IsStale(x.decay, rates, now))
            && ((forall i :: 0 <= i < |rates| ==> rates[i].updatedAt <= now)
                && IsRequested(list, ev.how.v.selection) && IsTooOften(x.decay, rates, ticks, now) ==>
                  IsWithheld(list, ev.how.v.selection))
  {
    CountsAreHistories(x, f, states, evs, list, u, before);
    WithheldIff(x, f, states, evs, ev, list, u, before);
    var rates, ticks := RatesFor(list, states[|evs|].st.rates[u]), AllTicks(list, u, before, states, evs);
    StaleIff(x.decay, rates, ticks, now);
    if IsTooOften(x.decay, rates, ticks, now) && forall i :: 0 <= i < |rates| ==> rates[i].updatedAt <= now {
      TooOftenStays(x.decay, rates, ticks, now);
    }
  }

  /** Requests at least `gap` apart, and a limit that allows for one every `gap` */
  ghost predicate IsPatient(decay: real -> real, gap: real, r: RateState, ticks: seq<real>) {
    var q := decay(Age(gap, 0.0, r.window));
    Spaced(gap, ticks) && q < 1.0 && 1.0 / (1.0 - q) <= r.maxCount
  }

  lemma PatienceIsUnderLimit(decay: real -> real, gap: real, r: RateState, ticks: seq<real>)
    requires IsDecay(decay) && HasTicked(decay, r, ticks) && IsPatient(decay, gap, r, ticks)
    ensures r.IsUnderLimit()
  {
    if ticks == [] {
      assert IsFraction(decay, Age(gap, 0.0, r.window));
      GeometricBound(decay(Age(gap, 0.0, r.window)), 0.0);
    } else {
      WeightIsBounded(decay, r.window, gap, ticks);
    }
  }

  ghost predicate ArePatient(decay: real -> real, gap: real, rates: seq<RateState>, ticks: seq<seq<real>>)
    requires |ticks| == |rates|
  {
    forall i :: 0 <= i < |rates| ==> IsPatient(decay, gap, rates[i], ticks[i])
  }

  lemma PatienceIsKept(decay: real -> real, gap: real, rates: seq<RateState>, later: seq<RateState>, ticks: seq<seq<real>>)
    requires IsDecay(decay) && HaveTicked(decay, later, ticks) && AreSameLimits(later, rates)
    requires ArePatient(decay, gap, rates, ticks)
    ensures AllUnderLimit(later)
  {
    forall i | 0 <= i < |later| ensures later[i].IsUnderLimit() {
      assert IsPatient(decay, gap, rates[i], ticks[i]) && IsSameLimit(later[i], rates[i]);
      PatienceIsUnderLimit(decay, gap, later[i], ticks[i]);
    }
  }

  /** A user whose requests are far enough apart is never refused a list, after any run */
  lemma PatientUsersAreServed<K(!new), V(!new), R(!new)>(
      x: Setup, f: Feed<K, V, R>, states: seq<System<K, V, R>>, evs: seq<TrackerEvent<K, V>>, ev: TrackerEvent<K, V>,
      list: ListKind, u: UserId, before: seq<seq<real>>, gap: real)
    requires IsDecay(x.decay) && IsRun(x, f, states, evs) && IsCarried(x, states[|evs|].st, ev, u)
    requires u in states[0].st.rates && HaveTicked(x.decay, RatesFor(list, states[0].st.rates[u]), before)
    requires ArePatient(x.decay, gap, RatesFor(list, states[0].st.rates[u]), AllTicks(list, u, before, states, evs))
    ensures !IsWithheld(list, ev.how.v.selection)
  {
    CountsAreHistories(x, f, states, evs, list, u, before);
    WithheldNow(x, states[|evs|].st, ev, u, list);
    PatienceIsKept(x.decay, gap, RatesFor(list, states[0].st.rates[u]), RatesFor(list, states[|evs|].st.rates[u]),
                   AllTicks(list, u, before, states, evs));
  }
}
