/** Runs in which every announce and every reaper pass carries out its operations before the next one starts:
    all counters are exact after each step, and the limits hold. */
module AtomicRuns {
  import opened MachineInts
  import opened Tables
  import opened Updates
  import opened Peers
  import opened Announces
  import opened Reaper
  import opened Swarms
  import opened SwarmRuns

  ghost function Settle(c: Config, w: World): World
    decreases |w.userOps| + |w.torrentOps|
  {
    if w.userOps != [] then Settle(c, Next(c, w, ApplyUserOp(0)))
    else if w.torrentOps != [] then Settle(c, Next(c, w, ApplyTorrentOp(0)))
    else w
  }

  ghost predicate IsAtomic(step: WorldStep) {
    step.Announce? || step.Reap? || step.Flush?
  }

  ghost function AtomicNext(c: Config, w: World, step: WorldStep): World
    requires StepEnabled(c, w, step)
  {
    Settle(c, Next(c, w, step))
  }

  /** Nothing is pending; the torrent counters are the counts and are fully written or queued; the user
      counters are the users' listed peers over all torrents. */
  ghost predicate Exact(c: Config, w: World) {
    && w.userOps == [] && w.torrentOps == []
    && AllCounted(c, 0, I32_MAX, w)
    && forall col: Column, u :: u in w.users ==> UserCounter(col, w.users[u]) == Listed(c, UserKind(col, u), w.torrents)
  }

  /** Sizes that fit the machine: fewer than 2^31 peers a torrent, fewer than 2^32 listed peers a user */
  ghost predicate Moderate(c: Config, w: World) {
    && (forall i :: 0 <= i < |w.torrents| ==> Sized(w.torrents[i]))
    && (forall col: Column, u :: u in w.users ==> Listed(c, UserKind(col, u), w.torrents) <= U32_MAX)
  }

  /** Either a single change or only decrements */
  ghost predicate OneSided(ops: seq<UserOp>) {
    |ops| <= 1 || forall op :: op in ops ==> op.seeding <= 0 && op.leeching <= 0
  }

  lemma {:induction false} PendingIsNegative(col: Column, u: UserId, ops: seq<UserOp>)
    requires forall op :: op in ops ==> op.seeding <= 0 && op.leeching <= 0
    ensures PendingFor(col, u, ops) <= 0
  {
    if ops != [] {
      PendingIsNegative(col, u, ops[1..]);
    }
  }

  /** Without drift, no clamp can happen when one-sided changes are applied in order */
  lemma NoClamp(c: Config, col: Column, w: World, u: UserId)
    requires u in w.users && w.userOps != [] && OneSided(w.userOps)
    requires Drift(c, col, w, u) == 0 && Listed(c, UserKind(col, u), w.torrents) <= U32_MAX
    ensures Clamped(col, w, ApplyUserOp(0), u) == 0
    ensures OneSided(w.userOps[1..])
  {
    var ops := w.userOps;
    assert ops[0] in ops;
    if |ops| > 1 {
      PendingIsNegative(col, u, ops[1..]);
    } else {
      assert ops[1..] == [] && PendingFor(col, u, ops[1..]) == 0;
    }
  }

  lemma FitsWhenQuiet(c: Config, w: World)
    requires AllCounted(c, 0, I32_MAX, w) && (forall n :: 0 <= n < |w.torrents| ==> Sized(w.torrents[n]))
    requires w.torrentOps == []
    ensures Fits(0, I32_MAX, w)
  {
    forall col: Column, n | 0 <= n < |w.torrents|
      ensures 0 <= CounterOf(col, w.torrents[n]) - Outstanding(col, w.torrents[n].id, w.torrentOps) <= I32_MAX
    {
      assert Counted(c, col, 0, I32_MAX, w, w.torrents[n]);
    }
  }

  ghost predicate Driftless(c: Config, w: World) {
    forall col: Column, u :: u in w.users ==> Drift(c, col, w, u) == 0
  }

  lemma CountedIsSound(c: Config, lo: int, hi: int, w: World)
    requires AllCounted(c, lo, hi, w) && Fits(lo, hi, w)
    ensures TorrentsAreSound(w)
  {
    forall i | 0 <= i < |w.torrents| ensures Distinct(w.torrents[i].peers) {
      assert Counted(c, Seeders, lo, hi, w, w.torrents[i]);
    }
  }

  lemma DriftlessAfterUserOp(c: Config, w: World)
    requires TorrentsAreSound(w) && Moderate(c, w) && Driftless(c, w)
    requires w.userOps != [] && OneSided(w.userOps)
    ensures Driftless(c, Next(c, w, ApplyUserOp(0))) && Next(c, w, ApplyUserOp(0)).users.Keys == w.users.Keys
    ensures OneSided(Next(c, w, ApplyUserOp(0)).userOps)
  {
    var w' := Next(c, w, ApplyUserOp(0));
    assert w'.userOps == w.userOps[1..];
    assert OneSided(w.userOps[1..]);
    forall col: Column, u | u in w'.users ensures Drift(c, col, w', u) == 0 {
      NoClamp(c, col, w, u);
      DriftStep(c, col, w, ApplyUserOp(0), u);
    }
  }

  /** Carrying out the operations of one locked section makes all counters exact again */
  lemma {:induction false} SettleIsExact(c: Config, w: World)
    requires AllCounted(c, 0, I32_MAX, w) && Fits(0, I32_MAX, w) && Moderate(c, w) && Driftless(c, w)
    requires OneSided(w.userOps) && |w.torrentOps| <= 1
    ensures Exact(c, Settle(c, w)) && Settle(c, w).torrents == w.torrents && Settle(c, w).users.Keys == w.users.Keys
    decreases |w.userOps| + |w.torrentOps|
  {
    if w.userOps != [] {
      CountedIsSound(c, 0, I32_MAX, w);
      DriftlessAfterUserOp(c, w);
      CountsStep(c, 0, I32_MAX, w, ApplyUserOp(0));
      SettleIsExact(c, Next(c, w, ApplyUserOp(0)));
    } else if w.torrentOps != [] {
      CountsAfterLastOp(c, w);
      DriftlessAfterTorrentOp(c, w);
      SettleIsExact(c, Next(c, w, ApplyTorrentOp(0)));
    } else {
      forall col: Column, u | u in w.users
        ensures UserCounter(col, w.users[u]) == Listed(c, UserKind(col, u), w.torrents)
      {
        assert Drift(c, col, w, u) == 0;
      }
    }
  }

  lemma DriftlessAfterTorrentOp(c: Config, w: World)
    requires Driftless(c, w) && w.torrentOps != []
    ensures Driftless(c, Next(c, w, ApplyTorrentOp(0)))
  {
    var w' := Next(c, w, ApplyTorrentOp(0));
    forall col: Column, u | u in w'.users ensures Drift(c, col, w', u) == 0 {
      assert Drift(c, col, w, u) == 0;
    }
  }

  lemma CountsAfterLastOp(c: Config, w: World)
    requires AllCounted(c, 0, I32_MAX, w) && Fits(0, I32_MAX, w) && |w.torrentOps| == 1
    ensures var w' := Next(c, w, ApplyTorrentOp(0));
            AllCounted(c, 0, I32_MAX, w') && Fits(0, I32_MAX, w')
  {
    var w' := Next(c, w, ApplyTorrentOp(0));
    assert w'.torrentOps == [];
    forall col: Column, n | 0 <= n < |w'.torrents|
      ensures 0 <= CounterOf(col, w'.torrents[n]) - Outstanding(col, w'.torrents[n].id, w'.torrentOps) <= I32_MAX
    {
      assert Counted(c, col, 0, I32_MAX, w, w.torrents[n]);
    }
    CountsStep(c, 0, I32_MAX, w, ApplyTorrentOp(0));
  }

  lemma {:induction false} EffectOpsAreDecrements(es: seq<Effect>)
    ensures forall op :: op in OpsOfEffects(es) ==> op.seeding <= 0 && op.leeching <= 0
  {
    if es != [] {
      EffectOpsAreDecrements(es[1..]);
    }
  }

  lemma FitsAfter(c: Config, w: World, w': World, i: nat)
    requires AllCounted(c, 0, I32_MAX, w) && w.torrentOps == [] && i < |w.torrents|
    requires forall n :: 0 <= n < |w.torrents| ==> Sized(w.torrents[n])
    requires |w'.torrents| == |w.torrents| && forall n :: 0 <= n < |w'.torrents| ==> Sized(w'.torrents[n])
    requires forall n :: 0 <= n < |w.torrents| && n != i ==> w'.torrents[n] == w.torrents[n]
    requires ExactSection(c, w.torrents[i], w'.torrents[i], w'.torrentOps)
    ensures Fits(0, I32_MAX, w')
  {
    forall col: Column, n | 0 <= n < |w'.torrents|
      ensures 0 <= CounterOf(col, w'.torrents[n]) - Outstanding(col, w'.torrents[n].id, w'.torrentOps) <= I32_MAX
    {
      assert Counted(c, col, 0, I32_MAX, w, w.torrents[n]);
    }
  }

  lemma FitsAfterAnnounce(c: Config, w: World, i: nat, user: UserId, q: Request, hit: bool)
    requires AllCounted(c, 0, I32_MAX, w) && w.torrentOps == [] && w.userOps == [] && i < |w.torrents|
    requires Moderate(c, w) && Moderate(c, AnnounceNext(c, w, i, user, q, hit))
    ensures var w' := AnnounceNext(c, w, i, user, q, hit);
            Fits(0, I32_MAX, w') && OneSided(w'.userOps) && |w'.torrentOps| <= 1
  {
    FitsWhenQuiet(c, w);
    var t := w.torrents[i];
    if PeerChange(c, t.peers, user, q, hit).Ok? {
      var w' := AnnounceNext(c, w, i, user, q, hit);
      var ops := TorrentOpsOf(t.id, PeerChange(c, t.peers, user, q, hit).value);
      assert w'.torrentOps == ops;
      CountedTallies(c, 0, I32_MAX, w, i);
      AnnounceIsExact(c, t, user, q, hit);
      FitsAfter(c, w, w', i);
    }
  }

  lemma FitsAfterReap(c: Config, w: World, w': World, i: nat, ac: Time, ic: Time)
    requires AllCounted(c, 0, I32_MAX, w) && w.torrentOps == [] && i < |w.torrents|
    requires |w'.torrents| == |w.torrents|
    requires forall n :: 0 <= n < |w.torrents| ==> Sized(w.torrents[n]) && Sized(w'.torrents[n])
    requires w'.torrents == w.torrents[i := ReapedTorrent(c, ac, ic, w.torrents[i])]
    requires w'.torrentOps == ReapOps(c, ac, ic, w.torrents[i])
    ensures Fits(0, I32_MAX, w')
  {
    CountedTallies(c, 0, I32_MAX, w, i);
    ReapIsExact(c, w.torrents[i], ac, ic);
    FitsAfter(c, w, w', i);
  }

  lemma ReapLeavesOps(c: Config, w: World, i: nat, ac: Time, ic: Time)
    requires w.torrentOps == [] && w.userOps == [] && StepEnabled(c, w, Reap(i, ac, ic))
    ensures var w' := Next(c, w, Reap(i, ac, ic));
            w'.torrentOps == ReapOps(c, ac, ic, w.torrents[i]) && |w'.torrentOps| <= 1 && OneSided(w'.userOps)
  {
    var w' := Next(c, w, Reap(i, ac, ic));
    var es := EffectsOf(c, ac, ic, w.torrents[i].peers);
    assert w'.userOps == OpsOfEffects(es);
    EffectOpsAreDecrements(es);
  }

  /** Each atomic step keeps all counters exact */
  lemma AtomicStepIsExact(c: Config, w: World, step: WorldStep)
    requires Exact(c, w) && Moderate(c, w) && IsAtomic(step) && StepEnabled(c, w, step)
    requires Moderate(c, Next(c, w, step))
    ensures Exact(c, AtomicNext(c, w, step))
    ensures AtomicNext(c, w, step).torrents == Next(c, w, step).torrents
    ensures AtomicNext(c, w, step).users.Keys == w.users.Keys
  {
    var w' := Next(c, w, step);
    FitsWhenQuiet(c, w);
    match step {
      case Announce(i, user, q, hit) => FitsAfterAnnounce(c, w, i, user, q, hit);
      case Reap(i, ac, ic) =>
        ReapLeavesOps(c, w, i, ac, ic);
        FitsAfterReap(c, w, w', i, ac, ic);
      case _ =>
    }
    CountsStep(c, 0, I32_MAX, w, step);
    CountedIsSound(c, 0, I32_MAX, w);
    forall col: Column, u | u in w'.users ensures Drift(c, col, w', u) == 0 {
      assert UserCounter(col, w.users[u]) == Listed(c, UserKind(col, u), w.torrents);
      DriftStep(c, col, w, step, u);
    }
    SettleIsExact(c, w');
  }

  ghost predicate ModerateRun(c: Config, w: World, steps: seq<WorldStep>)
    decreases |steps|
  {
    Moderate(c, w) &&
    (steps != [] ==>
       && IsAtomic(steps[0]) && StepEnabled(c, w, steps[0]) && Moderate(c, Next(c, w, steps[0]))
       && ModerateRun(c, AtomicNext(c, w, steps[0]), steps[1..]))
  }

  ghost function AtomicEnd(c: Config, w: World, steps: seq<WorldStep>): World
    requires ModerateRun(c, w, steps)
    decreases |steps|
  {
    if steps == [] then w else AtomicEnd(c, AtomicNext(c, w, steps[0]), steps[1..])
  }

  /** With atomic announces and passes, and flushes whose batches succeed or fail at will, every user counter and
      every torrent counter is exact after every step. */
  lemma {:induction false} AtomicRunsAreExact(c: Config, w: World, steps: seq<WorldStep>)
    requires Exact(c, w) && ModerateRun(c, w, steps)
    ensures Exact(c, AtomicEnd(c, w, steps))
    ensures AtomicEnd(c, w, steps).users.Keys == w.users.Keys
    decreases |steps|
  {
    if steps != [] {
      AtomicStepIsExact(c, w, steps[0]);
      AtomicRunsAreExact(c, AtomicNext(c, w, steps[0]), steps[1..]);
    }
  }

  // ---- The download slot limit ----

  /** The announce looked at the user's own counter, and does not slip past the limit */
  ghost predicate RespectsSlots(c: Config, w: World, step: WorldStep, u: UserId, slots: nat)
    requires u in w.users && StepEnabled(c, w, step)
  {
    step.Announce? && step.user == u ==>
      && step.hit == (step.q.left > 0 && w.users[u].numLeeching >= slots)
      && !SlipsPastSlotLimit(c, w.torrents[step.i].peers, u, step.q)
  }

  lemma SlotsStep(c: Config, w: World, step: WorldStep, u: UserId, slots: nat)
    requires Exact(c, w) && Moderate(c, w) && IsAtomic(step) && StepEnabled(c, w, step)
    requires Moderate(c, Next(c, w, step)) && u in w.users && RespectsSlots(c, w, step, u, slots)
    ensures u in AtomicNext(c, w, step).users
    ensures AtomicNext(c, w, step).users[u].numLeeching <= Max(slots, w.users[u].numLeeching)
  {
    AtomicStepIsExact(c, w, step);
    var w' := AtomicNext(c, w, step);
    assert UserCounter(Leechers, w'.users[u]) == Listed(c, LeechesOf(u), w'.torrents);
    assert UserCounter(Leechers, w.users[u]) == Listed(c, LeechesOf(u), w.torrents);
    ListedLeechesStep(c, w, step, u, slots);
  }

  lemma LeechesAfterAnnounce(c: Config, w: World, i: nat, user: UserId, q: Request, hit: bool, u: UserId, slots: nat)
    requires Exact(c, w) && Moderate(c, w) && StepEnabled(c, w, Announce(i, user, q, hit))
    requires u in w.users && RespectsSlots(c, w, Announce(i, user, q, hit), u, slots)
    ensures Listed(c, LeechesOf(u), Next(c, w, Announce(i, user, q, hit)).torrents) <= Max(slots, w.users[u].numLeeching)
  {
    var t := w.torrents[i];
    assert UserCounter(Leechers, w.users[u]) == Listed(c, UserKind(Leechers, u), w.torrents);
    assert Counted(c, Seeders, 0, I32_MAX, w, t);
    if PeerChange(c, t.peers, user, q, hit).Ok? {
      var ch := PeerChange(c, t.peers, user, q, hit).value;
      DeltasAreCountChanges(c, t.peers, user, q, hit, LeechesOf(u));
      ListedAfter(c, LeechesOf(u), w.torrents, i, AnnouncedTorrent(t, ch));
      SlotLimitIff(c, t.peers, user, q, hit);
      AtMostOneLeech(c, t.peers, user, q, hit);
    }
  }

  lemma ListedLeechesStep(c: Config, w: World, step: WorldStep, u: UserId, slots: nat)
    requires Exact(c, w) && Moderate(c, w) && IsAtomic(step) && StepEnabled(c, w, step)
    requires u in w.users && RespectsSlots(c, w, step, u, slots)
    ensures Listed(c, LeechesOf(u), Next(c, w, step).torrents) <= Max(slots, w.users[u].numLeeching)
  {
    assert UserCounter(Leechers, w.users[u]) == Listed(c, UserKind(Leechers, u), w.torrents);
    match step
    case Announce(i, user, q, hit) => LeechesAfterAnnounce(c, w, i, user, q, hit, u, slots);
    case Reap(i, ac, ic) =>
      ListedAfter(c, LeechesOf(u), w.torrents, i, ReapedTorrent(c, ac, ic, w.torrents[i]));
      DropIsNonNegative(c, LeechesOf(u), ac, ic, w.torrents[i].peers);
    case Flush(_) =>
  }

  lemma AtMostOneLeech(c: Config, ps: PeerStore, user: UserId, q: Request, hit: bool)
    requires PeerChange(c, ps, user, q, hit).Ok?
    ensures PeerChange(c, ps, user, q, hit).value.leecherDelta <= 1
  {
  }

  ghost predicate SlotRun(c: Config, w: World, steps: seq<WorldStep>, u: UserId, slots: nat)
    requires ModerateRun(c, w, steps)
    decreases |steps|
  {
    steps == [] ||
    (u in w.users && RespectsSlots(c, w, steps[0], u, slots)
     && SlotRun(c, AtomicNext(c, w, steps[0]), steps[1..], u, slots))
  }

  /** In runs where none of the user's announces slips past the limit, the user never leeches on more torrents
      than the group's slots, or than at the start. */
  lemma {:induction false} SlotLimitHolds(c: Config, w: World, steps: seq<WorldStep>, u: UserId, slots: nat)
    requires Exact(c, w) && ModerateRun(c, w, steps) && u in w.users && SlotRun(c, w, steps, u, slots)
    ensures u in AtomicEnd(c, w, steps).users
    ensures AtomicEnd(c, w, steps).users[u].numLeeching <= Max(slots, w.users[u].numLeeching)
    decreases |steps|
  {
    if steps != [] {
      SlotsStep(c, w, steps[0], u, slots);
      AtomicStepIsExact(c, w, steps[0]);
      SlotLimitHolds(c, AtomicNext(c, w, steps[0]), steps[1..], u, slots);
    }
  }
}
