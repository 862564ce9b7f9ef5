/** Claims about the counters over every run of announces, reaper passes and flushes. */
module SwarmRuns {
  import opened MachineInts
  import opened Tables
  import FlushProtocol
  import opened Updates
  import opened Peers
  import opened Announces
  import opened Reaper
  import opened Swarms

  // ---- Torrent counters ----

  lemma CountsAfterLockedSection(
      c: Config, lo: int, hi: int, w: World, w': World, i: nat, t': Torrent, ops: seq<TorrentOp>)
    requires AllCounted(c, lo, hi, w) && i < |w.torrents|
    requires w'.torrents == w.torrents[i := t'] && w'.torrentOps == w.torrentOps + ops && w'.sync == w.sync
    requires ExactSection(c, w.torrents[i], t', ops)
    ensures AllCounted(c, lo, hi, w')
  {
    forall col: Column, n | 0 <= n < |w'.torrents| ensures Counted(c, col, lo, hi, w', w'.torrents[n]) {
      OutstandingConcat(col, w'.torrents[n].id, w.torrentOps, ops);
      assert Counted(c, col, lo, hi, w, w.torrents[n]);
    }
  }

  lemma CountsAfterSync(c: Config, lo: int, hi: int, w: World,
                        step: FlushProtocol.Step<TorrentId, TorrentUpdate>, w': World)
    requires AllCounted(c, lo, hi, w) && hi - lo <= I32_MAX && FlushProtocol.Enabled(w.sync, step)
    requires w'.sync == FlushProtocol.Next(TorrentPolicy(), w.sync, step) && w'.torrents == w.torrents
    requires forall col: Column, id ::
               Outstanding(col, id, w.torrentOps) == Outstanding(col, id, w'.torrentOps)
               + (if step.Upsert? && step.key == id then DeltaIn(col)(step.update) else 0)
    requires Fits(lo, hi, w')
    ensures AllCounted(c, lo, hi, w')
  {
    forall col: Column, n | 0 <= n < |w'.torrents| ensures Counted(c, col, lo, hi, w', w'.torrents[n]) {
      assert Counted(c, col, lo, hi, w, w.torrents[n]);
      CountedAfterSync(c, col, lo, hi, w, w.torrents[n], step, w');
    }
    FlushProtocol.StepProjects(TorrentPolicy(), w.sync, step, 0);
  }

  lemma CountsAfterAnnounce(c: Config, lo: int, hi: int, w: World, i: nat, user: UserId, q: Request, hit: bool)
    requires AllCounted(c, lo, hi, w) && i < |w.torrents| && Sized(w.torrents[i])
    ensures AllCounted(c, lo, hi, AnnounceNext(c, w, i, user, q, hit))
  {
    var t := w.torrents[i];
    if PeerChange(c, t.peers, user, q, hit).Ok? {
      var ch := PeerChange(c, t.peers, user, q, hit).value;
      CountedTallies(c, lo, hi, w, i);
      AnnounceIsExact(c, t, user, q, hit);
      CountsAfterLockedSection(c, lo, hi, w, AnnounceNext(c, w, i, user, q, hit), i, AnnouncedTorrent(t, ch),
                               TorrentOpsOf(t.id, ch));
    }
  }

  lemma CountsAfterReap(c: Config, lo: int, hi: int, w: World, i: nat, ac: Time, ic: Time)
    requires AllCounted(c, lo, hi, w) && StepEnabled(c, w, Reap(i, ac, ic)) && Sized(w.torrents[i])
    ensures AllCounted(c, lo, hi, Next(c, w, Reap(i, ac, ic)))
  {
    var t := w.torrents[i];
    CountedTallies(c, lo, hi, w, i);
    ReapIsExact(c, t, ac, ic);
    CountsAfterLockedSection(c, lo, hi, w, Next(c, w, Reap(i, ac, ic)), i, ReapedTorrent(c, ac, ic, t),
                             ReapOps(c, ac, ic, t));
  }

  lemma CountsAfterUserOp(c: Config, lo: int, hi: int, w: World, j: nat)
    requires AllCounted(c, lo, hi, w) && j < |w.userOps|
    ensures AllCounted(c, lo, hi, Next(c, w, ApplyUserOp(j)))
  {
    var w' := Next(c, w, ApplyUserOp(j));
    forall col: Column, n | 0 <= n < |w'.torrents| ensures Counted(c, col, lo, hi, w', w'.torrents[n]) {
      assert Counted(c, col, lo, hi, w, w.torrents[n]);
    }
  }

  lemma CountsAfterTorrentOp(c: Config, lo: int, hi: int, w: World, j: nat)
    requires hi - lo <= I32_MAX && AllCounted(c, lo, hi, w) && j < |w.torrentOps|
    requires Fits(lo, hi, Next(c, w, ApplyTorrentOp(j)))
    ensures AllCounted(c, lo, hi, Next(c, w, ApplyTorrentOp(j)))
  {
    forall col: Column, id
      ensures Outstanding(col, id, w.torrentOps)
              == Outstanding(col, id, w.torrentOps[..j] + w.torrentOps[j + 1..])
                 + (if w.torrentOps[j].0 == id then DeltaIn(col)(w.torrentOps[j].1) else 0)
    {
      OutstandingWithout(col, id, w.torrentOps, j);
    }
    CountsAfterSync(c, lo, hi, w, FlushProtocol.Upsert(w.torrentOps[j].0, w.torrentOps[j].1),
                    Next(c, w, ApplyTorrentOp(j)));
  }

  /** Every step keeps every torrent's counters exact and accounted for */
  lemma CountsStep(c: Config, lo: int, hi: int, w: World, step: WorldStep)
    requires hi - lo <= I32_MAX && AllCounted(c, lo, hi, w) && Fits(lo, hi, w)
    requires StepEnabled(c, w, step) && Fits(lo, hi, Next(c, w, step))
    ensures AllCounted(c, lo, hi, Next(c, w, step))
  {
    match step
    case Announce(i, user, q, hit) => CountsAfterAnnounce(c, lo, hi, w, i, user, q, hit);
    case Reap(i, ac, ic) => CountsAfterReap(c, lo, hi, w, i, ac, ic);
    case ApplyUserOp(j) => CountsAfterUserOp(c, lo, hi, w, j);
    case ApplyTorrentOp(j) => CountsAfterTorrentOp(c, lo, hi, w, j);
    case Flush(s) => CountsAfterSync(c, lo, hi, w, s, Next(c, w, step));
  }

  /** A run whose states all have the assumed sizes */
  ghost predicate FittingRun(c: Config, lo: int, hi: int, w: World, steps: seq<WorldStep>)
    decreases |steps|
  {
    Fits(lo, hi, w) &&
    (steps != [] ==> StepEnabled(c, w, steps[0]) && FittingRun(c, lo, hi, Next(c, w, steps[0]), steps[1..]))
  }

  ghost function End(c: Config, lo: int, hi: int, w: World, steps: seq<WorldStep>): World
    requires FittingRun(c, lo, hi, w, steps)
    decreases |steps|
  {
    if steps == [] then w else End(c, lo, hi, Next(c, w, steps[0]), steps[1..])
  }

  /** In every state of every run, for every torrent: the in-memory seeders (leechers) are the number of peers in
      the seed (leech) list, and equal stored + in flight + queued + outstanding; no saturation ever fires. */
  lemma {:induction false} CountersNeverDrift(c: Config, lo: int, hi: int, w: World, steps: seq<WorldStep>)
    requires hi - lo <= I32_MAX && AllCounted(c, lo, hi, w) && FittingRun(c, lo, hi, w, steps)
    ensures AllCounted(c, lo, hi, End(c, lo, hi, w, steps))
    decreases |steps|
  {
    if steps != [] {
      CountsStep(c, lo, hi, w, steps[0]);
      CountersNeverDrift(c, lo, hi, Next(c, w, steps[0]), steps[1..]);
    }
  }

  // ---- User counters ----

  function UserKind(col: Column, u: UserId): Kind {
    if col == Seeders then SeedsOf(u) else LeechesOf(u)
  }

  function UserCounter(col: Column, u: User): u32 {
    if col == Seeders then u.numSeeding else u.numLeeching
  }

  function OpDelta(col: Column, op: UserOp): i32 {
    if col == Seeders then op.seeding else op.leeching
  }

  /** The number of the user's listed seeds (leeches) on all torrents */
  function Listed(c: Config, kind: Kind, torrents: seq<Torrent>): nat {
    if torrents == [] then 0 else Tally(c, kind, torrents[0].peers) + Listed(c, kind, torrents[1..])
  }

  function PendingFor(col: Column, u: UserId, ops: seq<UserOp>): int {
    if ops == [] then 0
    else (if ops[0].user == u then OpDelta(col, ops[0]) else 0) + PendingFor(col, u, ops[1..])
  }

  /** By how much the counter, once everything pending is added, exceeds the user's listed peers */
  ghost function Drift(c: Config, col: Column, w: World, u: UserId): int
    requires u in w.users
  {
    UserCounter(col, w.users[u]) + PendingFor(col, u, w.userOps) - Listed(c, UserKind(col, u), w.torrents)
  }

  ghost predicate TorrentsAreSound(w: World) {
    forall i :: 0 <= i < |w.torrents| ==> Distinct(w.torrents[i].peers) && Sized(w.torrents[i])
  }

  lemma {:induction false} PendingConcat(col: Column, u: UserId, a: seq<UserOp>, b: seq<UserOp>)
    ensures PendingFor(col, u, a + b) == PendingFor(col, u, a) + PendingFor(col, u, b)
  {
    if a == [] {
      assert a + b == b;
    } else {
      PendingConcat(col, u, a[1..], b);
      assert (a + b)[0] == a[0] && (a + b)[1..] == a[1..] + b;
    }
  }

  lemma PendingWithout(col: Column, u: UserId, ops: seq<UserOp>, j: nat)
    requires j < |ops|
    ensures PendingFor(col, u, ops)
            == PendingFor(col, u, ops[..j] + ops[j + 1..]) + (if ops[j].user == u then OpDelta(col, ops[j]) else 0)
  {
    assert ops == ops[..j] + ([ops[j]] + ops[j + 1..]);
    PendingConcat(col, u, ops[..j], [ops[j]] + ops[j + 1..]);
    PendingConcat(col, u, ops[..j], ops[j + 1..]);
    assert ([ops[j]] + ops[j + 1..])[1..] == ops[j + 1..];
  }

  lemma {:induction false} ListedAfter(c: Config, kind: Kind, torrents: seq<Torrent>, i: nat, t': Torrent)
    requires i < |torrents|
    ensures Listed(c, kind, torrents[i := t'])
            == Listed(c, kind, torrents) - Tally(c, kind, torrents[i].peers) + Tally(c, kind, t'.peers)
  {
    if i == 0 {
      assert torrents[i := t'][1..] == torrents[1..];
    } else {
      ListedAfter(c, kind, torrents[1..], i - 1, t');
      assert torrents[i := t'][1..] == torrents[1..][i - 1 := t'];
    }
  }

  lemma PendingWithFirst(col: Column, u: UserId, op: UserOp, ops: seq<UserOp>)
    ensures PendingFor(col, u, [op] + ops) == (if op.user == u then OpDelta(col, op) else 0) + PendingFor(col, u, ops)
  {
    assert ([op] + ops)[1..] == ops;
  }

  lemma {:induction false} PendingOfEffects(col: Column, u: UserId, es: seq<Effect>)
    ensures PendingFor(col, u, OpsOfEffects(es))
            == -(multiset(es)[if col == Seeders then SeedGone(u) else LeechGone(u)] as int)
  {
    if es != [] {
      PendingOfEffects(col, u, es[1..]);
      assert multiset(es) == multiset{es[0]} + multiset(es[1..]) by { assert es == [es[0]] + es[1..]; }
      PendingWithFirst(col, u, OpOfEffect(es[0]), OpsOfEffects(es[1..]));
    }
  }

  /** What clamping adds when an operation is applied to a user's counter */
  ghost function Clamped(col: Column, w: World, step: WorldStep, u: UserId): int
    requires step.ApplyUserOp? ==> step.j < |w.userOps|
  {
    if step.ApplyUserOp? && w.userOps[step.j].user == u && u in w.users then
      var x, d := UserCounter(col, w.users[u]), OpDelta(col, w.userOps[step.j]);
      SaturatingAddSigned(x, d) - (x + d)
    else 0
  }

  lemma DriftAfterAnnounce(c: Config, col: Column, w: World, i: nat, user: UserId, q: Request, hit: bool, u: UserId)
    requires TorrentsAreSound(w) && i < |w.torrents| && u in w.users
    ensures AnnounceNext(c, w, i, user, q, hit).users == w.users
    ensures Drift(c, col, AnnounceNext(c, w, i, user, q, hit), u) == Drift(c, col, w, u)
  {
    var t := w.torrents[i];
    if PeerChange(c, t.peers, user, q, hit).Ok? {
      var ch := PeerChange(c, t.peers, user, q, hit).value;
      DeltasAreCountChanges(c, t.peers, user, q, hit, UserKind(col, u));
      ListedAfter(c, UserKind(col, u), w.torrents, i, AnnouncedTorrent(t, ch));
      PendingConcat(col, u, w.userOps, [UserOp(user, ch.seederDelta, ch.leecherDelta)]);
      assert [UserOp(user, ch.seederDelta, ch.leecherDelta)][1..] == [];
    }
  }

  lemma DriftAfterReap(c: Config, col: Column, w: World, i: nat, ac: Time, ic: Time, u: UserId)
    requires StepEnabled(c, w, Reap(i, ac, ic)) && u in w.users
    ensures Drift(c, col, Next(c, w, Reap(i, ac, ic)), u) == Drift(c, col, w, u)
  {
    var t := w.torrents[i];
    var es := EffectsOf(c, ac, ic, t.peers);
    ListedAfter(c, UserKind(col, u), w.torrents, i, ReapedTorrent(c, ac, ic, t));
    PendingConcat(col, u, w.userOps, OpsOfEffects(es));
    PendingOfEffects(col, u, es);
    EffectsCountDrops(c, ac, ic, t.peers, u);
  }

  lemma DriftAfterUserOp(c: Config, col: Column, w: World, j: nat, u: UserId)
    requires j < |w.userOps| && u in w.users
    ensures Drift(c, col, Next(c, w, ApplyUserOp(j)), u) == Drift(c, col, w, u) + Clamped(col, w, ApplyUserOp(j), u)
  {
    PendingWithout(col, u, w.userOps, j);
  }

  /** Drift changes only by clamping */
  lemma DriftStep(c: Config, col: Column, w: World, step: WorldStep, u: UserId)
    requires TorrentsAreSound(w) && StepEnabled(c, w, step) && u in w.users
    ensures Next(c, w, step).users.Keys == w.users.Keys
    ensures Drift(c, col, Next(c, w, step), u) == Drift(c, col, w, u) + Clamped(col, w, step, u)
  {
    match step
    case Announce(i, user, q, hit) => DriftAfterAnnounce(c, col, w, i, user, q, hit, u);
    case Reap(i, ac, ic) => DriftAfterReap(c, col, w, i, ac, ic, u);
    case ApplyUserOp(j) => DriftAfterUserOp(c, col, w, j, u);
    case _ =>
  }

  lemma SoundStep(c: Config, w: World, step: WorldStep)
    requires TorrentsAreSound(w) && StepEnabled(c, w, step)
    ensures forall i :: 0 <= i < |w.torrents| ==> Distinct(Next(c, w, step).torrents[i].peers)
    ensures |Next(c, w, step).torrents| == |w.torrents|
  {
    match step
    case Announce(i, user, q, hit) =>
      if PeerChange(c, w.torrents[i].peers, user, q, hit).Ok? {
        DeltasAreCountChanges(c, w.torrents[i].peers, user, q, hit, Seeds);
      }
    case Reap(i, ac, ic) =>
      ReapedDistinct(ac, ic, w.torrents[i].peers);
    case _ =>
  }

  /** No operation lifts a counter past its 32 bits, and torrents stay below 2^31 peers */
  ghost predicate RoomyRun(c: Config, w: World, steps: seq<WorldStep>)
    decreases |steps|
  {
    (forall i :: 0 <= i < |w.torrents| ==> Sized(w.torrents[i])) &&
    (steps != [] ==>
       && StepEnabled(c, w, steps[0])
       && (forall col: Column, u :: u in w.users ==> !Overflows(col, w, steps[0], u))
       && RoomyRun(c, Next(c, w, steps[0]), steps[1..]))
  }

  ghost predicate Overflows(col: Column, w: World, step: WorldStep, u: UserId)
    requires u in w.users
    requires step.ApplyUserOp? ==> step.j < |w.userOps|
  {
    step.ApplyUserOp? && w.userOps[step.j].user == u &&
    UserCounter(col, w.users[u]) + OpDelta(col, w.userOps[step.j]) > U32_MAX
  }

  /** The counter would have gone below zero */
  ghost predicate Underflows(col: Column, w: World, step: WorldStep, u: UserId)
    requires step.ApplyUserOp? ==> step.j < |w.userOps|
  {
    step.ApplyUserOp? && w.userOps[step.j].user == u && u in w.users &&
    UserCounter(col, w.users[u]) + OpDelta(col, w.userOps[step.j]) < 0
  }

  ghost function EndOf(c: Config, w: World, steps: seq<WorldStep>): World
    requires RoomyRun(c, w, steps)
    decreases |steps|
  {
    if steps == [] then w else EndOf(c, Next(c, w, steps[0]), steps[1..])
  }

  ghost predicate NeverUnderflows(c: Config, col: Column, w: World, steps: seq<WorldStep>, u: UserId)
    requires RoomyRun(c, w, steps)
    decreases |steps|
  {
    steps == [] ||
    (!Underflows(col, w, steps[0], u) && NeverUnderflows(c, col, Next(c, w, steps[0]), steps[1..], u))
  }

  /** Under every interleaving of locked sections and later user updates, a user's counter plus pending changes
      never falls further behind the user's listed peers than it started; it keeps its distance exactly in the
      runs where no decrement found a counter already at zero. */
  lemma {:induction false} UserCountersNeverUndercount(
      c: Config, col: Column, w: World, steps: seq<WorldStep>, u: UserId)
    requires TorrentsAreSound(w) && RoomyRun(c, w, steps) && u in w.users
    ensures u in EndOf(c, w, steps).users
    ensures Drift(c, col, EndOf(c, w, steps), u) >= Drift(c, col, w, u)
    ensures Drift(c, col, EndOf(c, w, steps), u) == Drift(c, col, w, u)
            <==> NeverUnderflows(c, col, w, steps, u)
    decreases |steps|
  {
    if steps != [] {
      DriftStep(c, col, w, steps[0], u);
      SoundStep(c, w, steps[0]);
      assert !Overflows(col, w, steps[0], u);
      UserCountersNeverUndercount(c, col, Next(c, w, steps[0]), steps[1..], u);
    }
  }

  // ---- An overlap that over-counts ----

  /** A leech that is alone on its torrent starts, and stops again */
  lemma StartAndStop(c: Config, user: UserId, start: Request, stop: Request)
    requires start.event != Stopped && stop.event == Stopped && start.peerId == stop.peerId
    requires start.left > 0 && start.isConnectable && c.maxPeersPerTorrentPerUser >= 1
    ensures var started := PeerChange(c, [], user, start, false);
            && started.Ok? && started.value.seederDelta == 0 && started.value.leecherDelta == 1
            && var stopped := PeerChange(c, started.value.peers, user, stop, false);
            && stopped.Ok? && stopped.value.seederDelta == 0 && stopped.value.leecherDelta == -1
            && stopped.value.peers == []
  {
    var e := (IndexOf(user, start), NewPeer(start, false));
    TallyOne(c, ActiveOf(user), e);
    assert [] + [e] == [e];
    assert Find([e], IndexOf(user, stop)) == 0;
  }

  /** If the user's update of a stop overtakes that of the start before it, the decrement is lost on a counter at zero:
      the user is left with one leech too many, although nothing is listed and nothing is pending. */
  lemma OvertakenUpdateOvercounts(c: Config, w: World, user: UserId, start: Request, stop: Request)
    requires |w.torrents| == 1 && w.torrents[0].peers == [] && w.userOps == []
    requires user in w.users && w.users[user].numLeeching == 0
    requires start.event != Stopped && stop.event == Stopped && start.peerId == stop.peerId
    requires start.left > 0 && start.isConnectable && c.maxPeersPerTorrentPerUser >= 1
    ensures var w1 := Next(c, w, Announce(0, user, start, false));
            && StepEnabled(c, w1, Announce(0, user, stop, false))
            && var w2 := Next(c, w1, Announce(0, user, stop, false));
            && StepEnabled(c, w2, ApplyUserOp(1))
            && var w3 := Next(c, w2, ApplyUserOp(1));
            && StepEnabled(c, w3, ApplyUserOp(0))
            && var w4 := Next(c, w3, ApplyUserOp(0));
            && w4.userOps == [] && user in w4.users && w4.users[user].numLeeching == 1
            && Listed(c, LeechesOf(user), w4.torrents) == 0
  {
    StartAndStop(c, user, start, stop);
    var w1 := Next(c, w, Announce(0, user, start, false));
    var w2 := Next(c, w1, Announce(0, user, stop, false));
    assert w2.userOps == [UserOp(user, 0, 1), UserOp(user, 0, -1)] && w2.users == w.users;
    assert w2.torrents[0].peers == [] && w2.torrents[1..] == [];
    var w3 := Next(c, w2, ApplyUserOp(1));
    assert w3.userOps == [UserOp(user, 0, 1)];
    var w4 := Next(c, w3, ApplyUserOp(0));
    assert w4.torrents == w2.torrents;
  }
}
