/** The download slot limit over runs: a user's leeches stay within a bound exactly if no announce of the user slips past
    the limit while the bound is used up. */
module SlotRuns {
  import opened MachineInts
  import opened Results
  import opened Updates
  import opened Peers
  import opened Announces
  import Reaper
  import opened Swarms
  import opened SwarmRuns
  import opened AtomicRuns
  import opened Tracker
  import opened TorrentLedgers
  import TrackerRuns

  // ---- Atomic steps ----

  /** Whether the announce finds the slots taken is read from the user's own counter */
  ghost predicate LooksAtCounter(w: World, step: WorldStep, u: UserId, slots: nat)
    requires u in w.users
  {
    step.Announce? && step.user == u ==> step.hit == (step.q.left > 0 && w.users[u].numLeeching >= slots)
  }

  ghost predicate Slips(c: Config, w: World, step: WorldStep, u: UserId)
    requires StepEnabled(c, w, step)
  {
    step.Announce? && step.user == u && SlipsPastSlotLimit(c, w.torrents[step.i].peers, u, step.q)
  }

  /** An announce that slips past the limit is accepted */
  lemma SlippingIsAccepted(c: Config, ps: PeerStore, user: UserId, q: Request, hit: bool)
    requires SlipsPastSlotLimit(c, ps, user, q)
    ensures PeerChange(c, ps, user, q, hit).Ok?
  {
  }

  /** With the slots taken an announce adds a leech exactly if it slips, and never more than one */
  lemma LeechesAdded(c: Config, ps: PeerStore, user: UserId, q: Request, hit: bool, slots: nat, count: nat)
    requires PeerChange(c, ps, user, q, hit).Ok? && hit == (q.left > 0 && count >= slots)
    ensures PeerChange(c, ps, user, q, hit).value.leecherDelta <= 1
    ensures count >= slots ==>
              (PeerChange(c, ps, user, q, hit).value.leecherDelta > 0 <==> SlipsPastSlotLimit(c, ps, user, q))
  {
    SlotLimitIff(c, ps, user, q, hit);
    AtMostOneLeech(c, ps, user, q, hit);
  }

  lemma AboveAfterAnnounceIff(
      c: Config, w: World, i: nat, user: UserId, q: Request, hit: bool, u: UserId, slots: nat, bound: nat)
    requires Exact(c, w) && Moderate(c, w) && StepEnabled(c, w, Announce(i, user, q, hit))
    requires u in w.users && LooksAtCounter(w, Announce(i, user, q, hit), u, slots)
    requires slots <= bound && w.users[u].numLeeching <= bound
    ensures Listed(c, LeechesOf(u), Next(c, w, Announce(i, user, q, hit)).torrents) > bound
            <==> Slips(c, w, Announce(i, user, q, hit), u) && w.users[u].numLeeching == bound
  {
    var t := w.torrents[i];
    assert UserCounter(Leechers, w.users[u]) == Listed(c, UserKind(Leechers, u), w.torrents);
    assert Counted(c, Seeders, 0, I32_MAX, w, t);
    if PeerChange(c, t.peers, user, q, hit).Ok? {
      var ch := PeerChange(c, t.peers, user, q, hit).value;
      DeltasAreCountChanges(c, t.peers, user, q, hit, LeechesOf(u));
      ListedAfter(c, LeechesOf(u), w.torrents, i, AnnouncedTorrent(t, ch));
      if user == u {
        LeechesAdded(c, t.peers, user, q, hit, slots, w.users[u].numLeeching);
      }
    } else if SlipsPastSlotLimit(c, t.peers, user, q) {
      SlippingIsAccepted(c, t.peers, user, q, hit);
    }
  }

  lemma AboveAfterStepIff(c: Config, w: World, step: WorldStep, u: UserId, slots: nat, bound: nat)
    requires Exact(c, w) && Moderate(c, w) && IsAtomic(step) && StepEnabled(c, w, step)
    requires u in w.users && LooksAtCounter(w, step, u, slots)
    requires slots <= bound && w.users[u].numLeeching <= bound
    ensures Listed(c, LeechesOf(u), Next(c, w, step).torrents) > bound
            <==> Slips(c, w, step, u) && w.users[u].numLeeching == bound
  {
    assert UserCounter(Leechers, w.users[u]) == Listed(c, UserKind(Leechers, u), w.torrents);
    match step
    case Announce(i, user, q, hit) => AboveAfterAnnounceIff(c, w, i, user, q, hit, u, slots, bound);
    case Reap(i, ac, ic) =>
      ListedAfter(c, LeechesOf(u), w.torrents, i, ReapedTorrent(c, ac, ic, w.torrents[i]));
      Reaper.DropIsNonNegative(c, LeechesOf(u), ac, ic, w.torrents[i].peers);
    case Flush(_) =>
  }

  ghost predicate CounterAtMost(w: World, u: UserId, bound: nat) {
    u in w.users && w.users[u].numLeeching <= bound
  }

  ghost predicate CounterIs(w: World, u: UserId, n: nat) {
    u in w.users && w.users[u].numLeeching == n
  }

  ghost predicate AllLook(c: Config, w: World, steps: seq<WorldStep>, u: UserId, slots: nat)
    requires ModerateRun(c, w, steps)
    decreases |steps|
  {
    steps == [] ||
    (u in w.users && LooksAtCounter(w, steps[0], u, slots) && AllLook(c, AtomicNext(c, w, steps[0]), steps[1..], u, slots))
  }

  ghost predicate NeverAbove(c: Config, w: World, steps: seq<WorldStep>, u: UserId, bound: nat)
    requires ModerateRun(c, w, steps)
    decreases |steps|
  {
    && CounterAtMost(w, u, bound)
    && (steps != [] ==> NeverAbove(c, AtomicNext(c, w, steps[0]), steps[1..], u, bound))
  }

  ghost predicate NoSlipAt(c: Config, w: World, steps: seq<WorldStep>, u: UserId, bound: nat)
    requires ModerateRun(c, w, steps)
    decreases |steps|
  {
    steps == [] ||
    (!(Slips(c, w, steps[0], u) && CounterIs(w, u, bound)) && NoSlipAt(c, AtomicNext(c, w, steps[0]), steps[1..], u, bound))
  }

  /** In a run of atomic announces of anyone, passes and flushes, a user's leeches stay within the slots, or within any
      bound above, exactly if no announce of the user slips past the limit while that many are counted. */
  lemma {:induction false} SlotLimitHoldsIff(c: Config, w: World, steps: seq<WorldStep>, u: UserId, slots: nat, bound: nat)
    requires Exact(c, w) && ModerateRun(c, w, steps) && AllLook(c, w, steps, u, slots)
    requires slots <= bound && CounterAtMost(w, u, bound)
    ensures NeverAbove(c, w, steps, u, bound) <==> NoSlipAt(c, w, steps, u, bound)
    decreases |steps|
  {
    if steps != [] {
      var w' := AtomicNext(c, w, steps[0]);
      AtomicStepIsExact(c, w, steps[0]);
      AboveAfterStepIff(c, w, steps[0], u, slots, bound);
      assert UserCounter(Leechers, w'.users[u]) == Listed(c, UserKind(Leechers, u), w'.torrents);
      if CounterAtMost(w', u, bound) {
        SlotLimitHoldsIff(c, w', steps[1..], u, slots, bound);
      }
    }
  }

  // ---- The tracker ----

  /** The user's group has so many slots */
  ghost predicate HasSlots(x: Setup, st: State, u: UserId, slots: u32) {
    && u in st.users && st.users[u].groupId in x.reg.groups
    && x.reg.groups[st.users[u].groupId].downloadSlots == Some(slots)
  }

  /** The event is an accepted announce of the user that slips past the limit, with that many leeches counted */
  ghost predicate SlipsAt(x: Setup, st: State, ev: TorrentEvent, u: UserId, bound: nat) {
    && ev.Called? && ev.how.Carried? && ev.how.a.userId == u && ev.how.a.place < |st.torrents|
    && SlipsPastSlotLimit(x.c, st.torrents[ev.how.a.place].peers, u, ev.call.request)
    && u in st.users && st.users[u].numLeeching == bound
  }

  lemma AboveAfterCallIff(
      x: Setup, s: TorrentSystem, ev: TorrentEvent, s': TorrentSystem, u: UserId, slots: u32, bound: nat)
    requires TrackerRuns.IsExact(x, s) && TrackerRuns.IsModerate(x, s) && TrackerRuns.Follows(x, s, ev, s')
    requires ev.Called? && ev.how.Carried? && HasSlots(x, s.st, u, slots)
    requires slots <= bound && s.st.users[u].numLeeching <= bound
    ensures Listed(x.c, LeechesOf(u), s'.st.torrents) > bound <==> SlipsAt(x, s.st, ev, u, bound)
  {
    var a := ev.how.a;
    var step := Announce(a.place, a.userId, ev.call.request, HitOf(a, ev.call));
    AboveAfterStepIff(x.c, TrackerRuns.WorldOf(s), step, u, slots, bound);
    assert Swarms.Next(x.c, TrackerRuns.WorldOf(s), step).torrents == s'.st.torrents;
  }

  lemma AboveAfterEventIff(
      x: Setup, s: TorrentSystem, ev: TorrentEvent, s': TorrentSystem, u: UserId, slots: u32, bound: nat)
    requires TrackerRuns.IsExact(x, s) && TrackerRuns.IsModerate(x, s) && TrackerRuns.Follows(x, s, ev, s')
    requires HasSlots(x, s.st, u, slots) && TrackerRuns.IsExact(x, s') && u in s'.st.users
    requires slots <= bound && s.st.users[u].numLeeching <= bound
    ensures s'.st.users[u].numLeeching > bound <==> SlipsAt(x, s.st, ev, u, bound)
  {
    TrackerRuns.ExactUserCounter(x, s, Leechers, u);
    TrackerRuns.ExactUserCounter(x, s', Leechers, u);
    match ev
    case Called(_, _, how) =>
      if how.Carried? {
        AboveAfterCallIff(x, s, ev, s', u, slots, bound);
      }
    case Passed(ac, ic) => TrackerRuns.PassListsNoMore(x.c, LeechesOf(u), ac, ic, s.st.torrents);
    case Flushed(_) => assert TrackerRuns.WorldOf(s').torrents == TrackerRuns.WorldOf(s).torrents;
  }

  lemma AboveAtIff(
      x: Setup, states: seq<TorrentSystem>, evs: seq<TorrentEvent>, u: UserId, slots: u32, bound: nat, i: nat)
    requires TrackerRuns.IsRun(x, states, evs) && TrackerRuns.IsExact(x, states[0]) && i < |evs|
    requires HasSlots(x, states[i].st, u, slots) && u in states[i + 1].st.users
    requires slots <= bound && states[i].st.users[u].numLeeching <= bound
    ensures states[i + 1].st.users[u].numLeeching > bound <==> SlipsAt(x, states[i].st, evs[i], u, bound)
  {
    TrackerRuns.ExactThroughout(x, states, evs, i);
    TrackerRuns.ExactThroughout(x, states, evs, i + 1);
    TrackerRuns.RunAt(x, states, evs, i);
    AboveAfterEventIff(x, states[i], evs[i], states[i + 1], u, slots, bound);
  }

  ghost predicate AllHaveSlots(x: Setup, states: seq<TorrentSystem>, u: UserId, slots: u32) {
    forall i :: 0 <= i < |states| ==> HasSlots(x, states[i].st, u, slots)
  }

  lemma {:induction false} WithinBound(
      x: Setup, states: seq<TorrentSystem>, evs: seq<TorrentEvent>, u: UserId, slots: u32, bound: nat, n: nat)
    requires TrackerRuns.IsRun(x, states, evs) && TrackerRuns.IsExact(x, states[0]) && n < |states|
    requires AllHaveSlots(x, states, u, slots) && slots <= bound && states[0].st.users[u].numLeeching <= bound
    requires forall i :: 0 <= i < |evs| ==> !SlipsAt(x, states[i].st, evs[i], u, bound)
    ensures states[n].st.users[u].numLeeching <= bound
  {
    if n > 0 {
      var i := n - 1;
      WithinBound(x, states, evs, u, slots, bound, i);
      assert HasSlots(x, states[i].st, u, slots) && HasSlots(x, states[i + 1].st, u, slots);
      assert !SlipsAt(x, states[i].st, evs[i], u, bound);
      AboveAtIff(x, states, evs, u, slots, bound, i);
    }
  }

  /** In a run of the tracker, a user's counted leeches stay within the slots of the user's group, or within any bound
      above, exactly if no accepted announce of the user slips past the limit while that many are counted. */
  lemma SlotLimitOverRunsIff(
      x: Setup, states: seq<TorrentSystem>, evs: seq<TorrentEvent>, u: UserId, slots: u32, bound: nat)
    requires TrackerRuns.IsRun(x, states, evs) && TrackerRuns.IsExact(x, states[0])
    requires AllHaveSlots(x, states, u, slots) && slots <= bound && states[0].st.users[u].numLeeching <= bound
    ensures (forall i :: 0 <= i < |states| ==> u in states[i].st.users && states[i].st.users[u].numLeeching <= bound)
            <==> (forall i :: 0 <= i < |evs| ==> !SlipsAt(x, states[i].st, evs[i], u, bound))
  {
    forall i | 0 <= i < |states| ensures u in states[i].st.users {
      assert HasSlots(x, states[i].st, u, slots);
    }
    if forall i :: 0 <= i < |evs| ==> !SlipsAt(x, states[i].st, evs[i], u, bound) {
      forall n | 0 <= n < |states| ensures states[n].st.users[u].numLeeching <= bound {
        WithinBound(x, states, evs, u, slots, bound, n);
      }
    } else {
      var i :| 0 <= i < |evs| && SlipsAt(x, states[i].st, evs[i], u, bound);
      assert HasSlots(x, states[i].st, u, slots) && HasSlots(x, states[i + 1].st, u, slots);
      AboveAtIff(x, states, evs, u, slots, bound, i);
    }
  }
}
