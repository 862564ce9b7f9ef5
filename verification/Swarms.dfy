/** The tracker's counters over whole runs: torrents with their peers and counters, users with theirs, and the
    queue and database rows the torrent counters are written to.

    A locked section on a torrent (an announce or a pass of the reaper) leaves behind operations on user
    counters and on the torrent queue that are carried out later, in any order and interleaved with
    everything else. `Next` is one such step; `AtomicNext` carries the operations out at once. */
module Swarms {
  import opened MachineInts
  import opened Tables
  import opened FlushProtocol
  import opened KeyRuns
  import opened Updates
  import opened Peers
  import opened Announces
  import opened Reaper

  datatype TorrentStatus = Pending | Approved | Rejected | Postponed | Unknown

  datatype Torrent = Torrent(
    id: TorrentId, status: TorrentStatus, isDeleted: bool, peers: PeerStore,
    seeders: u32, leechers: u32, timesCompleted: u32, downloadFactor: u8, uploadFactor: u8)

  datatype User = User(
    id: UserId, groupId: int, canDownload: bool, numSeeding: u32, numLeeching: u32,
    isDonor: bool, isLifetime: bool)

  /** A change of a user's counters still to be made */
  datatype UserOp = UserOp(user: UserId, seeding: i32, leeching: i32)

  type TorrentOp = (TorrentId, TorrentUpdate)

  datatype World = World(
    torrents: seq<Torrent>,
    users: map<UserId, User>,
    userOps: seq<UserOp>,
    torrentOps: seq<TorrentOp>,
    sync: Machine<TorrentId, TorrentUpdate, TorrentRow>)

  datatype WorldStep =
    | Announce(i: nat, user: UserId, q: Request, hit: bool)
    | Reap(i: nat, activeCutoff: Time, inactiveCutoff: Time)
    | ApplyUserOp(j: nat)
    | ApplyTorrentOp(j: nat)
    | Flush(step: Step<TorrentId, TorrentUpdate>)

  // ---- The locked sections ----

  function AnnouncedTorrent(t: Torrent, ch: Change): Torrent {
    t.(peers := ch.peers,
       seeders := SaturatingAddSigned(t.seeders, ch.seederDelta),
       leechers := SaturatingAddSigned(t.leechers, ch.leecherDelta),
       timesCompleted := SaturatingAddU32(t.timesCompleted, ch.timesCompletedDelta))
  }

  function ClampI64(x: u64): i64 {
    Min(x, I64_MAX)
  }

  function UpdateOfChange(ch: Change): TorrentUpdate {
    TorrentUpdate(ch.seederDelta, ch.leecherDelta, ch.timesCompletedDelta,
                  ClampI64(ch.uploadedDelta) - ClampI64(ch.downloadedDelta))
  }

  /** The update is queued only if it changes something */
  function TorrentOpsOf(id: TorrentId, ch: Change): seq<TorrentOp> {
    if ch.seederDelta != 0 || ch.leecherDelta != 0 || ch.timesCompletedDelta != 0
       || ch.uploadedDelta != 0 || ch.downloadedDelta != 0
    then [(id, UpdateOfChange(ch))] else []
  }

  /** `peers` has fewer than 2^31 entries: then the deltas of a pass fit their 32 bits */
  predicate Sized(t: Torrent) {
    |t.peers| <= I32_MAX
  }

  /** The change of a count in a pass, as its 32-bit delta has it */
  function DroppedDelta(c: Config, kind: Kind, activeCutoff: Time, inactiveCutoff: Time, ps: PeerStore): i32 {
    WrapI32(-Drop(c, kind, activeCutoff, inactiveCutoff, ps))
  }

  function ReapedTorrent(c: Config, activeCutoff: Time, inactiveCutoff: Time, t: Torrent): Torrent
  {
    t.(peers := ReapedPeers(activeCutoff, inactiveCutoff, t.peers),
       seeders := SaturatingAddSigned(t.seeders, DroppedDelta(c, Seeds, activeCutoff, inactiveCutoff, t.peers)),
       leechers := SaturatingAddSigned(t.leechers, DroppedDelta(c, Leeches, activeCutoff, inactiveCutoff, t.peers)))
  }

  function ReapOps(c: Config, activeCutoff: Time, inactiveCutoff: Time, t: Torrent): seq<TorrentOp>
  {
    var seeds := DroppedDelta(c, Seeds, activeCutoff, inactiveCutoff, t.peers);
    var leeches := DroppedDelta(c, Leeches, activeCutoff, inactiveCutoff, t.peers);
    if seeds != 0 || leeches != 0 then [(t.id, TorrentUpdate(seeds, leeches, 0, 0))] else []
  }

  function OpOfEffect(e: Effect): UserOp {
    match e
    case SeedGone(u) => UserOp(u, -1, 0)
    case LeechGone(u) => UserOp(u, 0, -1)
  }

  function OpsOfEffects(es: seq<Effect>): seq<UserOp> {
    if es == [] then [] else [OpOfEffect(es[0])] + OpsOfEffects(es[1..])
  }

  function AdjustedUser(u: User, op: UserOp): User {
    u.(numSeeding := SaturatingAddSigned(u.numSeeding, op.seeding),
       numLeeching := SaturatingAddSigned(u.numLeeching, op.leeching))
  }

  /** `entry(…).and_modify(…)`: nothing happens for an unknown user */
  function AdjustedUsers(users: map<UserId, User>, op: UserOp): map<UserId, User> {
    if op.user in users then users[op.user := AdjustedUser(users[op.user], op)] else users
  }

  // ---- Steps ----

  ghost predicate StepEnabled(c: Config, w: World, step: WorldStep) {
    match step
    case Announce(i, _, _, _) => i < |w.torrents|
    case Reap(i, _, _) => i < |w.torrents|
    case ApplyUserOp(j) => j < |w.userOps|
    case ApplyTorrentOp(j) => j < |w.torrentOps|
    case Flush(step) => !step.Upsert? && Enabled(w.sync, step)
  }

  ghost function Next(c: Config, w: World, step: WorldStep): World
    requires StepEnabled(c, w, step)
  {
    match step
    case Announce(i, user, q, hit) => AnnounceNext(c, w, i, user, q, hit)
    case Reap(i, ac, ic) =>
      var t := w.torrents[i];
      w.(torrents := w.torrents[i := ReapedTorrent(c, ac, ic, t)],
         userOps := w.userOps + OpsOfEffects(EffectsOf(c, ac, ic, t.peers)),
         torrentOps := w.torrentOps + ReapOps(c, ac, ic, t))
    case ApplyUserOp(j) =>
      w.(users := AdjustedUsers(w.users, w.userOps[j]), userOps := w.userOps[..j] + w.userOps[j + 1..])
    case ApplyTorrentOp(j) =>
      w.(sync := FlushProtocol.Next(TorrentPolicy(), w.sync, Upsert(w.torrentOps[j].0, w.torrentOps[j].1)),
         torrentOps := w.torrentOps[..j] + w.torrentOps[j + 1..])
    case Flush(step) => w.(sync := FlushProtocol.Next(TorrentPolicy(), w.sync, step))
  }

  ghost function AnnounceNext(c: Config, w: World, i: nat, user: UserId, q: Request, hit: bool): World
    requires i < |w.torrents|
  {
    match PeerChange(c, w.torrents[i].peers, user, q, hit)
    case Err(_) => w
    case Ok(ch) =>
      w.(torrents := w.torrents[i := AnnouncedTorrent(w.torrents[i], ch)],
         userOps := w.userOps + [UserOp(user, ch.seederDelta, ch.leecherDelta)],
         torrentOps := w.torrentOps + TorrentOpsOf(w.torrents[i].id, ch))
  }

  // ---- Torrent counters ----

  datatype Column = Seeders | Leechers

  function KindOf(col: Column): Kind {
    if col == Seeders then Seeds else Leeches
  }

  function CounterOf(col: Column, t: Torrent): u32 {
    if col == Seeders then t.seeders else t.leechers
  }

  function DeltaIn(col: Column): TorrentUpdate -> int {
    (v: TorrentUpdate) => if col == Seeders then v.seederDelta else v.leecherDelta
  }

  function StoredIn(col: Column): TorrentRow -> int {
    (r: TorrentRow) => if col == Seeders then r.seeders else r.leechers
  }

  /** Stored + in flight + queued, for one torrent */
  ghost function Written(col: Column, w: World, id: TorrentId): int {
    Ledger(DeltaIn(col), StoredIn(col), View(w.sync, id))
  }

  /** What the operations still to be carried out will add to a torrent's row */
  function Outstanding(col: Column, id: TorrentId, ops: seq<TorrentOp>): int {
    if ops == [] then 0
    else (if ops[0].0 == id then DeltaIn(col)(ops[0].1) else 0) + Outstanding(col, id, ops[1..])
  }

  ghost predicate DistinctIds(torrents: seq<Torrent>) {
    forall i, j :: 0 <= i < j < |torrents| ==> torrents[i].id != torrents[j].id
  }

  /** Stored rows, with or without the batch in flight, stay in a band of values */
  ghost predicate InBand(col: Column, lo: int, hi: int, ks: KeyState<TorrentUpdate, TorrentRow>) {
    && lo <= AmountOf(StoredIn(col), ks.stored) <= hi
    && lo <= AmountOf(StoredIn(col), ks.stored) + AmountOf(DeltaIn(col), ks.flight) <= hi
    && lo <= Ledger(DeltaIn(col), StoredIn(col), ks) <= hi
  }

  /** The in-memory counter is the number of listed peers, and equals what was written plus what is still
      outstanding. */
  ghost predicate Counted(c: Config, col: Column, lo: int, hi: int, w: World, t: Torrent) {
    && Distinct(t.peers)
    && CounterOf(col, t) == Tally(c, KindOf(col), t.peers)
    && CounterOf(col, t) == Written(col, w, t.id) + Outstanding(col, t.id, w.torrentOps)
    && InBand(col, lo, hi, View(w.sync, t.id))
  }

  ghost predicate AllCounted(c: Config, lo: int, hi: int, w: World) {
    && DistinctIds(w.torrents)
    && WellFormed(w.sync)
    && forall col: Column, i :: 0 <= i < |w.torrents| ==> Counted(c, col, lo, hi, w, w.torrents[i])
  }

  /** The sizes under which the claims are made: torrents have fewer than 2^31 peers, and the counts less what
      is outstanding stay in the band. */
  ghost predicate Fits(lo: int, hi: int, w: World) {
    && (forall i :: 0 <= i < |w.torrents| ==> Sized(w.torrents[i]))
    && forall col: Column, i :: 0 <= i < |w.torrents| ==>
         lo <= CounterOf(col, w.torrents[i]) - Outstanding(col, w.torrents[i].id, w.torrentOps) <= hi
  }

  lemma {:induction false} OutstandingConcat(col: Column, id: TorrentId, a: seq<TorrentOp>, b: seq<TorrentOp>)
    ensures Outstanding(col, id, a + b) == Outstanding(col, id, a) + Outstanding(col, id, b)
  {
    if a == [] {
      assert a + b == b;
    } else {
      OutstandingConcat(col, id, a[1..], b);
      assert (a + b)[0] == a[0] && (a + b)[1..] == a[1..] + b;
    }
  }

  lemma OutstandingWithout(col: Column, id: TorrentId, ops: seq<TorrentOp>, j: nat)
    requires j < |ops|
    ensures Outstanding(col, id, ops)
            == Outstanding(col, id, ops[..j] + ops[j + 1..])
               + (if ops[j].0 == id then DeltaIn(col)(ops[j].1) else 0)
  {
    assert ops == ops[..j] + ([ops[j]] + ops[j + 1..]);
    OutstandingConcat(col, id, ops[..j], [ops[j]] + ops[j + 1..]);
    OutstandingConcat(col, id, ops[..j], ops[j + 1..]);
    assert ([ops[j]] + ops[j + 1..])[1..] == ops[j + 1..];
  }

  /** Within a band narrower than 2^31 no merge of deltas saturates: the ledger moves by exactly what arrives */
  lemma BandStep(col: Column, lo: int, hi: int, ks: KeyState<TorrentUpdate, TorrentRow>, e: KeyStep<TorrentUpdate>)
    requires hi - lo <= I32_MAX && KeyEnabled(ks, e) && InBand(col, lo, hi, ks)
    requires e.Arrive? ==> lo <= Ledger(DeltaIn(col), StoredIn(col), ks) + DeltaIn(col)(e.update) <= hi
    ensures InBand(col, lo, hi, KeyNext(TorrentPolicy(), ks, e))
    ensures Ledger(DeltaIn(col), StoredIn(col), KeyNext(TorrentPolicy(), ks, e))
            == Ledger(DeltaIn(col), StoredIn(col), ks) + (if e.Arrive? then DeltaIn(col)(e.update) else 0)
  {
    var p := TorrentPolicy();
    match e
    case Arrive(v) =>
      if ks.queued.Some? {
        assert p.merge(ks.queued.value, v) == MergedTorrentUpdate(ks.queued.value, v);
      }
    case Land =>
      assert p.apply(ks.stored, ks.flight.value) == AppliedTorrentUpdate(ks.stored, ks.flight.value);
    case Return =>
      if ks.queued.Some? {
        assert p.merge(ks.queued.value, ks.flight.value) == MergedTorrentUpdate(ks.queued.value, ks.flight.value);
      }
    case _ =>
  }

  lemma CountedAfterSync(c: Config, col: Column, lo: int, hi: int, w: World, t: Torrent,
                         step: Step<TorrentId, TorrentUpdate>, w': World)
    requires hi - lo <= I32_MAX && WellFormed(w.sync) && Enabled(w.sync, step)
    requires Counted(c, col, lo, hi, w, t)
    requires w'.sync == FlushProtocol.Next(TorrentPolicy(), w.sync, step)
    requires CounterOf(col, t) - Outstanding(col, t.id, w'.torrentOps)
             == Written(col, w, t.id) + (if step.Upsert? && step.key == t.id then DeltaIn(col)(step.update) else 0)
    requires lo <= CounterOf(col, t) - Outstanding(col, t.id, w'.torrentOps) <= hi
    ensures Counted(c, col, lo, hi, w', t)
  {
    StepProjects(TorrentPolicy(), w.sync, step, t.id);
    BandStep(col, lo, hi, View(w.sync, t.id), ViewStep(w.sync, step, t.id));
  }

  /** The locked section of an announce keeps the counter of its torrent exact */
  lemma AnnouncedCount(c: Config, col: Column, t: Torrent, user: UserId, q: Request, hit: bool)
    requires Distinct(t.peers) && Sized(t) && PeerChange(c, t.peers, user, q, hit).Ok?
    requires CounterOf(col, t) == Tally(c, KindOf(col), t.peers)
    ensures var ch := PeerChange(c, t.peers, user, q, hit).value;
            var t' := AnnouncedTorrent(t, ch);
            && t'.id == t.id && Distinct(t'.peers)
            && CounterOf(col, t') == Tally(c, KindOf(col), t'.peers)
            && CounterOf(col, t') == CounterOf(col, t) + Outstanding(col, t.id, TorrentOpsOf(t.id, ch))
            && forall id :: id != t.id ==> Outstanding(col, id, TorrentOpsOf(t.id, ch)) == 0
  {
    DeltasAreCountChanges(c, t.peers, user, q, hit, KindOf(col));
    var ch := PeerChange(c, t.peers, user, q, hit).value;
    assert |ch.peers| <= |t.peers| + 1;
    var ops := TorrentOpsOf(t.id, ch);
    if ops != [] {
      assert ops[1..] == [];
    }
  }

  lemma ReapedCount(c: Config, col: Column, t: Torrent, activeCutoff: Time, inactiveCutoff: Time)
    requires Distinct(t.peers) && Sized(t)
    requires CounterOf(col, t) == Tally(c, KindOf(col), t.peers)
    ensures var t' := ReapedTorrent(c, activeCutoff, inactiveCutoff, t);
            var ops := ReapOps(c, activeCutoff, inactiveCutoff, t);
            && t'.id == t.id && Distinct(t'.peers) && Sized(t')
            && CounterOf(col, t') == Tally(c, KindOf(col), t'.peers)
            && CounterOf(col, t') == CounterOf(col, t) + Outstanding(col, t.id, ops)
            && forall id :: id != t.id ==> Outstanding(col, id, ops) == 0
  {
    ReapedDistinct(activeCutoff, inactiveCutoff, t.peers);
    DropIsNonNegative(c, Seeds, activeCutoff, inactiveCutoff, t.peers);
    DropIsNonNegative(c, Leeches, activeCutoff, inactiveCutoff, t.peers);
    var ops := ReapOps(c, activeCutoff, inactiveCutoff, t);
    if ops != [] {
      assert ops[1..] == [];
    }
  }

  /** What a locked section does to its torrent: the counters stay exact, and move by what it leaves outstanding */
  ghost predicate ExactSection(c: Config, t: Torrent, t': Torrent, ops: seq<TorrentOp>) {
    && t'.id == t.id && Distinct(t'.peers)
    && (forall col: Column :: CounterOf(col, t') == Tally(c, KindOf(col), t'.peers))
    && (forall col: Column :: CounterOf(col, t') == CounterOf(col, t) + Outstanding(col, t.id, ops))
    && (forall col: Column, id :: id != t.id ==> Outstanding(col, id, ops) == 0)
  }

  lemma AnnounceIsExact(c: Config, t: Torrent, user: UserId, q: Request, hit: bool)
    requires Distinct(t.peers) && Sized(t) && PeerChange(c, t.peers, user, q, hit).Ok?
    requires forall col: Column :: CounterOf(col, t) == Tally(c, KindOf(col), t.peers)
    ensures var ch := PeerChange(c, t.peers, user, q, hit).value;
            ExactSection(c, t, AnnouncedTorrent(t, ch), TorrentOpsOf(t.id, ch))
  {
    AnnouncedCount(c, Seeders, t, user, q, hit);
    AnnouncedCount(c, Leechers, t, user, q, hit);
  }

  lemma ReapIsExact(c: Config, t: Torrent, activeCutoff: Time, inactiveCutoff: Time)
    requires Distinct(t.peers) && Sized(t)
    requires forall col: Column :: CounterOf(col, t) == Tally(c, KindOf(col), t.peers)
    ensures ExactSection(c, t, ReapedTorrent(c, activeCutoff, inactiveCutoff, t),
                         ReapOps(c, activeCutoff, inactiveCutoff, t))
  {
    ReapedCount(c, Seeders, t, activeCutoff, inactiveCutoff);
    ReapedCount(c, Leechers, t, activeCutoff, inactiveCutoff);
  }

  lemma CountedTallies(c: Config, lo: int, hi: int, w: World, i: nat)
    requires AllCounted(c, lo, hi, w) && i < |w.torrents|
    ensures Distinct(w.torrents[i].peers)
    ensures forall col: Column :: CounterOf(col, w.torrents[i]) == Tally(c, KindOf(col), w.torrents[i].peers)
  {
    assert Counted(c, Seeders, lo, hi, w, w.torrents[i]) && Counted(c, Leechers, lo, hi, w, w.torrents[i]);
  }
}
