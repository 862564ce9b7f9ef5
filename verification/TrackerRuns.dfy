/** Whole runs of the tracker: what its methods do to its state are steps of the abstract runs, so that its counters
    are exact, and agree with what is stored and queued, after any sequence of calls, passes and flushes. */
module TrackerRuns {
  import opened MachineInts
  import opened Results
  import opened Updates
  import opened Peers
  import opened Announces
  import opened Admissions
  import opened Serving
  import opened Tracker
  import opened TorrentLedgers
  import TrackerLedgers
  import FlushProtocol
  import Reaper
  import Swarms
  import SwarmRuns
  import AtomicRuns
  import Passes

  ghost function WorldOf(s: TorrentSystem): Swarms.World {
    Swarms.World(s.st.torrents, s.st.users, [], [], FlushProtocol.Machine(s.st.torrentUpdates, s.flight, s.db))
  }

  ghost predicate Follows(x: Setup, s: TorrentSystem, ev: TorrentEvent, s': TorrentSystem) {
    TrackerLedgers.Follows(x, TorrentFeed(x), s, ev, s')
  }

  /** A carried-out call is an atomic announce of the abstract world */
  lemma CarriedIsAtomicStep(x: Setup, s: TorrentSystem, call: Call, a: Admission, v: Served, credit: UserUpdate)
    requires a.place < |s.st.torrents|
    requires PeerChange(x.c, s.st.torrents[a.place].peers, a.userId, call.request, HitOf(a, call)) == Ok(v.change)
    ensures AtomicRuns.AtomicNext(x.c, WorldOf(s), Swarms.Announce(a.place, a.userId, call.request, HitOf(a, call)))
            == WorldOf(s.(st := Accepted(x, s.st, call, a, v, credit)))
  {
    var w' := Swarms.Next(x.c, WorldOf(s), Swarms.Announce(a.place, a.userId, call.request, HitOf(a, call)));
    var op := Swarms.UserOp(a.userId, v.change.seederDelta, v.change.leecherDelta);
    Passes.SettleIsSettled(x.c, w');
    assert w'.userOps == [op];
    assert Passes.ApplyOps(s.st.users, [op]) == Swarms.AdjustedUsers(s.st.users, op) by {
      assert [op][1..] == [];
    }
    assert w'.torrentOps == Swarms.TorrentOpsOf(s.st.torrents[a.place].id, v.change);
  }

  /** One torrent of a pass is an atomic pass of the abstract world */
  lemma ReapedAtIsAtomicStep(x: Setup, s: TorrentSystem, i: nat, ac: Time, ic: Time)
    requires i < |s.st.torrents|
    ensures AtomicRuns.AtomicNext(x.c, WorldOf(s), Swarms.Reap(i, ac, ic))
            == WorldOf(s.(st := ReapedAt(x.c, ac, ic, s.st, i)))
  {
    var w' := Swarms.Next(x.c, WorldOf(s), Swarms.Reap(i, ac, ic));
    Passes.SettleIsSettled(x.c, w');
    assert w'.userOps == Passes.UserOpsOf(x.c, ac, ic, s.st.torrents[i]);
    assert w'.torrentOps == Swarms.ReapOps(x.c, ac, ic, s.st.torrents[i]);
  }

  // ---- Exactness ----

  ghost predicate IsExact(x: Setup, s: TorrentSystem) {
    AtomicRuns.Exact(x.c, WorldOf(s))
  }

  /** Fewer than 2^31 peers a torrent, fewer than 2^32 listed peers a user */
  ghost predicate IsModerate(x: Setup, s: TorrentSystem) {
    AtomicRuns.Moderate(x.c, WorldOf(s))
  }

  lemma CarriedKeepsExact(x: Setup, s: TorrentSystem, call: Call, a: Admission, v: Served, credit: UserUpdate)
    requires IsExact(x, s) && IsModerate(x, s) && a.place < |s.st.torrents|
    requires PeerChange(x.c, s.st.torrents[a.place].peers, a.userId, call.request, HitOf(a, call)) == Ok(v.change)
    requires IsModerate(x, s.(st := Accepted(x, s.st, call, a, v, credit)))
    ensures IsExact(x, s.(st := Accepted(x, s.st, call, a, v, credit)))
  {
    var step := Swarms.Announce(a.place, a.userId, call.request, HitOf(a, call));
    CarriedIsAtomicStep(x, s, call, a, v, credit);
    AtomicRuns.AtomicStepIsExact(x.c, WorldOf(s), step);
  }

  lemma ReapedAtKeepsExact(x: Setup, s: TorrentSystem, i: nat, ac: Time, ic: Time)
    requires IsExact(x, s) && IsModerate(x, s) && i < |s.st.torrents|
    ensures IsExact(x, s.(st := ReapedAt(x.c, ac, ic, s.st, i)))
    ensures IsModerate(x, s.(st := ReapedAt(x.c, ac, ic, s.st, i)))
  {
    var step := Swarms.Reap(i, ac, ic);
    assert WorldOf(s).torrents[i] == s.st.torrents[i];
    ReapedAtIsAtomicStep(x, s, i, ac, ic);
    ReapKeepsModerate(x.c, WorldOf(s), i, ac, ic);
    AtomicRuns.AtomicStepIsExact(x.c, WorldOf(s), step);
  }

  /** A pass makes nothing bigger */
  lemma ReapKeepsModerate(c: Config, w: Swarms.World, i: nat, ac: Time, ic: Time)
    requires AtomicRuns.Moderate(c, w) && AtomicRuns.Exact(c, w) && i < |w.torrents|
    ensures AtomicRuns.Moderate(c, Swarms.Next(c, w, Swarms.Reap(i, ac, ic)))
  {
    var w' := Swarms.Next(c, w, Swarms.Reap(i, ac, ic));
    Swarms.CountedTallies(c, 0, I32_MAX, w, i);
    Reaper.ReapedDistinct(ac, ic, w.torrents[i].peers);
    forall col: Swarms.Column, u | u in w'.users
      ensures SwarmRuns.Listed(c, SwarmRuns.UserKind(col, u), w'.torrents) <= U32_MAX
    {
      SwarmRuns.ListedAfter(c, SwarmRuns.UserKind(col, u), w.torrents, i, w'.torrents[i]);
      Reaper.DropIsNonNegative(c, SwarmRuns.UserKind(col, u), ac, ic, w.torrents[i].peers);
    }
  }

  /** The rest of a pass keeps all counters exact, torrent by torrent */
  lemma {:induction false} PassKeepsExact(x: Setup, start: State, s: TorrentSystem, ac: Time, ic: Time, i: nat)
    requires IsExact(x, s) && IsModerate(x, s) && PassSoFar(x.c, ac, ic, start, s.st, i)
    ensures IsExact(x, s.(st := Reaped(x.c, ac, ic, start)))
    decreases |start.torrents| - i
  {
    if i == |start.torrents| {
      PassEnds(x.c, ac, ic, start, s.st);
    } else {
      PassAtTorrent(x.c, ac, ic, start, s.st, i);
      ReapedAtKeepsExact(x, s, i, ac, ic);
      PassGoesOn(x.c, ac, ic, start, s.st, i);
      PassKeepsExact(x, start, s.(st := ReapedAt(x.c, ac, ic, s.st, i)), ac, ic, i + 1);
    }
  }

  lemma EventKeepsExact(x: Setup, s: TorrentSystem, ev: TorrentEvent, s': TorrentSystem)
    requires IsExact(x, s) && IsModerate(x, s) && Follows(x, s, ev, s') && IsModerate(x, s')
    ensures IsExact(x, s')
  {
    match ev
    case Called(call, r, how) =>
      if how.Carried? {
        assert s' == s.(st := Accepted(x, s.st, call, how.a, how.v, how.credit));
        CarriedKeepsExact(x, s, call, how.a, how.v, how.credit);
      } else {
        assert WorldOf(s') == WorldOf(s);
      }
    case Passed(ac, ic) =>
      PassStarts(x.c, ac, ic, s.st);
      PassKeepsExact(x, s.st, s, ac, ic, 0);
    case Flushed(step) =>
      FlushKeepsExact(x, s, step, s');
  }

  lemma FlushKeepsExact(x: Setup, s: TorrentSystem, step: FlushProtocol.Step<TorrentId, TorrentUpdate>, s': TorrentSystem)
    requires IsExact(x, s) && IsModerate(x, s) && Follows(x, s, TrackerLedgers.Flushed(step), s')
    ensures IsExact(x, s')
  {
    var w' := Swarms.Next(x.c, WorldOf(s), Swarms.Flush(step));
    assert w' == WorldOf(s');
    Passes.SettleIsSettled(x.c, w');
    AtomicRuns.AtomicStepIsExact(x.c, WorldOf(s), Swarms.Flush(step));
  }

  /** Consecutive states of a run, and the events between them */
  ghost predicate IsRun(x: Setup, states: seq<TorrentSystem>, evs: seq<TorrentEvent>) {
    && |states| == |evs| + 1
    && (forall i :: 0 <= i < |states| ==> IsModerate(x, states[i]))
    && forall i :: 0 <= i < |evs| ==> Follows(x, states[i], evs[i], states[i + 1])
  }

  lemma RunAt(x: Setup, states: seq<TorrentSystem>, evs: seq<TorrentEvent>, i: nat)
    requires IsRun(x, states, evs) && i < |evs|
    ensures Follows(x, states[i], evs[i], states[i + 1]) && IsModerate(x, states[i]) && IsModerate(x, states[i + 1])
  {
  }

  lemma {:induction false} ExactThroughout(x: Setup, states: seq<TorrentSystem>, evs: seq<TorrentEvent>, n: nat)
    requires IsRun(x, states, evs) && IsExact(x, states[0]) && n < |states|
    ensures IsExact(x, states[n])
  {
    if n > 0 {
      var i := n - 1;
      ExactThroughout(x, states, evs, i);
      RunAt(x, states, evs, i);
      EventKeepsExact(x, states[i], evs[i], states[i + 1]);
    }
  }

  lemma ExactCounters(x: Setup, s: TorrentSystem, col: Swarms.Column, i: nat)
    requires IsExact(x, s) && i < |s.st.torrents|
    ensures var t := s.st.torrents[i];
            && Swarms.CounterOf(col, t) == Tally(x.c, Swarms.KindOf(col), t.peers)
            && Swarms.CounterOf(col, t) == Swarms.Written(col, WorldOf(s), t.id)
  {
    var w := WorldOf(s);
    assert Swarms.Counted(x.c, col, 0, I32_MAX, w, w.torrents[i]);
  }

  lemma ExactUserCounter(x: Setup, s: TorrentSystem, col: Swarms.Column, u: UserId)
    requires IsExact(x, s) && u in s.st.users
    ensures SwarmRuns.UserCounter(col, s.st.users[u])
            == SwarmRuns.Listed(x.c, SwarmRuns.UserKind(col, u), s.st.torrents)
  {
    assert u in WorldOf(s).users;
  }

  /** In every state of every run, every torrent's seeders and leechers are the numbers of its listed peers, and
      equal stored plus in-flight plus queued changes; and every user's counters are the numbers of that user's
      listed peers on all torrents. */
  lemma RunsAreExact(x: Setup, states: seq<TorrentSystem>, evs: seq<TorrentEvent>, n: nat, col: Swarms.Column, i: nat, u: UserId)
    requires IsRun(x, states, evs) && IsExact(x, states[0]) && n < |states|
    ensures i < |states[n].st.torrents| ==>
              var t := states[n].st.torrents[i];
              && Swarms.CounterOf(col, t) == Tally(x.c, Swarms.KindOf(col), t.peers)
              && Swarms.CounterOf(col, t) == Swarms.Written(col, WorldOf(states[n]), t.id)
    ensures u in states[n].st.users ==>
              SwarmRuns.UserCounter(col, states[n].st.users[u])
              == SwarmRuns.Listed(x.c, SwarmRuns.UserKind(col, u), states[n].st.torrents)
  {
    ExactThroughout(x, states, evs, n);
    if i < |states[n].st.torrents| {
      ExactCounters(x, states[n], col, i);
    }
    if u in states[n].st.users {
      ExactUserCounter(x, states[n], col, u);
    }
  }

  // ---- The download slot limit ----

  lemma {:induction false} PassListsNoMore(c: Config, kind: Kind, ac: Time, ic: Time, ts: seq<Torrent>)
    ensures SwarmRuns.Listed(c, kind, Passes.ReapedAll(c, ac, ic, ts)) <= SwarmRuns.Listed(c, kind, ts)
  {
    if ts != [] {
      PassListsNoMore(c, kind, ac, ic, ts[1..]);
      Reaper.DropIsNonNegative(c, kind, ac, ic, ts[0].peers);
    }
  }

  /** The user's group has so many slots, and this event is no announce of the user that slips past them */
  ghost predicate RespectsSlots(x: Setup, s: TorrentSystem, ev: TorrentEvent, s': TorrentSystem, u: UserId, slots: u32)
    requires Follows(x, s, ev, s')
  {
    && u in s.st.users && s.st.users[u].groupId in x.reg.groups
    && x.reg.groups[s.st.users[u].groupId].downloadSlots == Some(slots)
    && (ev.Called? && ev.how.Carried? && ev.how.a.userId == u ==>
          !SlipsPastSlotLimit(x.c, s.st.torrents[ev.how.a.place].peers, u, ev.call.request))
  }

  lemma SlotsAfterCall(x: Setup, s: TorrentSystem, ev: TorrentEvent, s': TorrentSystem, u: UserId, slots: u32)
    requires IsExact(x, s) && IsModerate(x, s) && Follows(x, s, ev, s') && RespectsSlots(x, s, ev, s', u, slots)
    requires ev.Called? && ev.how.Carried?
    ensures SwarmRuns.Listed(x.c, LeechesOf(u), s'.st.torrents) <= Max(slots, s.st.users[u].numLeeching)
  {
    var a := ev.how.a;
    var step := Swarms.Announce(a.place, a.userId, ev.call.request, HitOf(a, ev.call));
    assert AtomicRuns.RespectsSlots(x.c, WorldOf(s), step, u, slots);
    AtomicRuns.ListedLeechesStep(x.c, WorldOf(s), step, u, slots);
    assert Swarms.Next(x.c, WorldOf(s), step).torrents == s'.st.torrents;
  }

  lemma SlotsAfterEvent(x: Setup, s: TorrentSystem, ev: TorrentEvent, s': TorrentSystem, u: UserId, slots: u32)
    requires IsExact(x, s) && IsModerate(x, s) && Follows(x, s, ev, s') && RespectsSlots(x, s, ev, s', u, slots)
    requires IsExact(x, s') && u in s'.st.users
    ensures s'.st.users[u].numLeeching <= Max(slots, s.st.users[u].numLeeching)
  {
    ExactUserCounter(x, s, Swarms.Leechers, u);
    ExactUserCounter(x, s', Swarms.Leechers, u);
    match ev
    case Called(_, _, how) =>
      if how.Carried? {
        SlotsAfterCall(x, s, ev, s', u, slots);
      }
    case Passed(ac, ic) => PassListsNoMore(x.c, LeechesOf(u), ac, ic, s.st.torrents);
    case Flushed(_) => assert WorldOf(s').torrents == WorldOf(s).torrents;
  }

  lemma SlotsAt(x: Setup, states: seq<TorrentSystem>, evs: seq<TorrentEvent>, u: UserId, slots: u32, i: nat)
    requires IsRun(x, states, evs) && IsExact(x, states[0]) && i < |evs|
    requires RespectsSlots(x, states[i], evs[i], states[i + 1], u, slots) && u in states[i + 1].st.users
    ensures states[i + 1].st.users[u].numLeeching <= Max(slots, states[i].st.users[u].numLeeching)
  {
    ExactThroughout(x, states, evs, i);
    ExactThroughout(x, states, evs, i + 1);
    SlotsAfterEvent(x, states[i], evs[i], states[i + 1], u, slots);
  }

  lemma {:induction false} NeverAboveMax(counts: seq<u32>, slots: u32, n: nat)
    requires n < |counts| && forall i :: 0 <= i < |counts| - 1 ==> counts[i + 1] <= Max(slots, counts[i])
    ensures counts[n] <= Max(slots, counts[0])
  {
    if n > 0 {
      NeverAboveMax(counts, slots, n - 1);
      assert counts[n - 1 + 1] <= Max(slots, counts[n - 1]);
    }
  }

  /** In runs where no announce of a user slips past the slot limit, the user never leeches on more torrents than
      the slots of the user's group, or than at the start. */
  lemma SlotLimitOverRuns(x: Setup, states: seq<TorrentSystem>, evs: seq<TorrentEvent>, u: UserId, slots: u32, n: nat)
    requires IsRun(x, states, evs) && IsExact(x, states[0]) && n < |states|
    requires forall i :: 0 <= i < |states| ==> u in states[i].st.users
    requires forall i :: 0 <= i < |evs| ==> RespectsSlots(x, states[i], evs[i], states[i + 1], u, slots)
    ensures states[n].st.users[u].numLeeching <= Max(slots, states[0].st.users[u].numLeeching)
  {
    var counts: seq<u32> := seq(|states|, i requires 0 <= i < |states| => states[i].st.users[u].numLeeching);
    forall i | 0 <= i < |counts| - 1 ensures counts[i + 1] <= Max(slots, counts[i]) {
      SlotsAt(x, states, evs, u, slots, i);
    }
    NeverAboveMax(counts, slots, n);
  }
}
