/** What one announce does to the peers of its torrent, and the changes of the counters that follow. */
module Announces {
  import opened MachineInts
  import opened Results
  import opened Tables
  import opened Updates
  import opened Errors
  import opened Warnings
  import opened Peers

  datatype Event = Completed | Empty | Started | Stopped

  /** An announce that passed the query parser, with what the environment contributes to it: the client's
      address, whether it could be connected to, and the time. */
  datatype Request = Request(
    peerId: PeerId,
    port: u16,
    uploaded: u64,
    downloaded: u64,
    left: u64,
    event: Event,
    numwant: nat,
    ip: IpAddress,
    agent: string,
    isConnectable: bool,
    now: Time)

  const SECOND: int := 1_000_000_000

  datatype Change = Change(
    peers: PeerStore,
    seederDelta: i32,
    leecherDelta: i32,
    timesCompletedDelta: u32,
    uploadedDelta: u64,
    downloadedDelta: u64,
    isVisible: bool,
    isActiveAfterStop: bool,
    warnings: seq<AnnounceWarning>)

  function IndexOf(user: UserId, q: Request): PeerIndex {
    PeerIndex(user, q.peerId)
  }

  function NewPeer(q: Request, hit: bool): Peer {
    Peer(q.ip, q.port, q.left == 0, true, !hit, q.isConnectable, q.event == Completed, q.now,
         q.uploaded, q.downloaded)
  }

  /** The slot limit does not hide a peer that is listed as a leech: the new seeding state and connectability
      count there, with the old activity and visibility. */
  function UpdatedPeer(c: Config, old_: Peer, q: Request, hit: bool): Peer {
    var p := old_.(ip := q.ip, port := q.port, isSeeder := q.left == 0, isConnectable := q.isConnectable);
    p.(isVisible := IsIncludedInLeechList(c, p) || !hit,
       isActive := true,
       hasSentCompleted := old_.hasSentCompleted || q.event == Completed,
       updatedAt := q.now,
       uploaded := q.uploaded,
       downloaded := q.downloaded)
  }

  /** The bytes (up, down) transferred since the peer's last announce; a report that went down is taken for
      a restarted session. */
  function SessionDelta(old_: Peer, q: Request): (u64, u64) {
    if q.uploaded < old_.uploaded || q.downloaded < old_.downloaded then (0, 0)
    else (q.uploaded - old_.uploaded, q.downloaded - old_.downloaded)
  }

  function FinalDelta(old_: Peer, q: Request): (u64, u64) {
    (SaturatingSubU64(q.uploaded, old_.uploaded), SaturatingSubU64(q.downloaded, old_.downloaded))
  }

  predicate AnnouncedTooSoon(c: Config, old_: Peer, q: Request) {
    && old_.updatedAt + c.announceMinEnforced * SECOND > q.now
    && (q.event != Completed || old_.hasSentCompleted)
  }

  function ConnectivityWarnings(c: Config, q: Request): seq<AnnounceWarning> {
    if !q.isConnectable && c.requirePeerConnectivity then [ConnectivityIssueDetected] else []
  }

  function SlotWarnings(p: Peer): seq<AnnounceWarning> {
    if p.isVisible then [] else [HitDownloadSlotLimit]
  }

  function RateWarnings(c: Config, old_: Peer, q: Request): seq<AnnounceWarning> {
    if AnnouncedTooSoon(c, old_, q) then [RateLimitExceeded] else []
  }

  /** Too many active peers of one user. The counter of the limit check is 16 bits wide, so that the largest
      limit is never exceeded. */
  predicate LimitExceeded(c: Config, activePeers: nat) {
    activePeers > c.maxPeersPerTorrentPerUser && c.maxPeersPerTorrentPerUser < U16_MAX
  }

  function StoppedChange(c: Config, ps: PeerStore, user: UserId, q: Request): Result<Change, AnnounceError> {
    var i := Find(ps, IndexOf(user, q));
    if i == |ps| then Err(StoppedPeerDoesNotExist)
    else
      var (p, rest) := (ps[i].1, SwapRemove(ps, i));
      var (up, down) := FinalDelta(p, q);
      Ok(Change(rest, -Bit(IsIncludedInSeedList(c, p)), -Bit(IsIncludedInLeechList(c, p)), 0, up, down,
                false, Tally(c, ActiveOf(user), rest) > 0, ConnectivityWarnings(c, q)))
  }

  function UpdateChange(c: Config, ps: PeerStore, i: nat, q: Request, hit: bool): Change
    requires i < |ps|
  {
    var old_ := ps[i].1;
    var p := UpdatedPeer(c, old_, q, hit);
    var (up, down) := SessionDelta(old_, q);
    Change(ps[i := (ps[i].0, p)],
           Bit(IsIncludedInSeedList(c, p)) - Bit(IsIncludedInSeedList(c, old_)),
           Bit(IsIncludedInLeechList(c, p)) - Bit(IsIncludedInLeechList(c, old_)),
           Bit(p.isSeeder && !old_.isSeeder), up, down, p.isVisible, false,
           ConnectivityWarnings(c, q) + SlotWarnings(p) + RateWarnings(c, old_, q))
  }

  function InsertChange(c: Config, ps: PeerStore, user: UserId, q: Request, hit: bool): Result<Change, AnnounceError> {
    var p := NewPeer(q, hit);
    var more := ps + [(IndexOf(user, q), p)];
    if LimitExceeded(c, Tally(c, ActiveOf(user), more)) then
      Err(PeersPerTorrentPerUserLimit(c.maxPeersPerTorrentPerUser))
    else
      Ok(Change(more, Bit(IsIncludedInSeedList(c, p)), Bit(IsIncludedInLeechList(c, p)), 0, 0, 0, p.isVisible,
                false, ConnectivityWarnings(c, q) + SlotWarnings(p)))
  }

  /** The change an announce makes, or its rejection, which changes nothing */
  function PeerChange(c: Config, ps: PeerStore, user: UserId, q: Request, hit: bool): Result<Change, AnnounceError> {
    var i := Find(ps, IndexOf(user, q));
    if q.event == Stopped then StoppedChange(c, ps, user, q)
    else if i < |ps| then Ok(UpdateChange(c, ps, i, q, hit))
    else InsertChange(c, ps, user, q, hit)
  }

  /** By how much the group's count changes with this announce of the user */
  function DeltaOf(kind: Kind, user: UserId, ch: Change): int
    requires !kind.ActiveOf?
  {
    match kind
    case Seeds => ch.seederDelta
    case Leeches => ch.leecherDelta
    case SeedsOf(u) => if u == user then ch.seederDelta else 0
    case LeechesOf(u) => if u == user then ch.leecherDelta else 0
  }

  /** The deltas are exactly the changes of the counts, in total and for each user, whatever the slot check
      said; and slots keep distinct keys. */
  lemma DeltasAreCountChanges(c: Config, ps: PeerStore, user: UserId, q: Request, hit: bool, kind: Kind)
    requires Distinct(ps) && PeerChange(c, ps, user, q, hit).Ok? && !kind.ActiveOf?
    ensures var ch := PeerChange(c, ps, user, q, hit).value;
            && Distinct(ch.peers)
            && Tally(c, kind, ch.peers) == Tally(c, kind, ps) + DeltaOf(kind, user, ch)
  {
    if q.event == Stopped {
      var i := Find(ps, IndexOf(user, q));
      SwapRemoveDistinct(ps, i);
      TallySwapRemove(c, kind, ps, i);
    } else if Find(ps, IndexOf(user, q)) < |ps| {
      UpdateDelta(c, ps, user, q, hit, kind);
    } else {
      InsertDelta(c, ps, user, q, hit, kind);
    }
  }

  lemma UpdateDelta(c: Config, ps: PeerStore, user: UserId, q: Request, hit: bool, kind: Kind)
    requires Distinct(ps) && !kind.ActiveOf? && Find(ps, IndexOf(user, q)) < |ps|
    ensures var ch := UpdateChange(c, ps, Find(ps, IndexOf(user, q)), q, hit);
            Distinct(ch.peers) && Tally(c, kind, ch.peers) == Tally(c, kind, ps) + DeltaOf(kind, user, ch)
  {
    var i := Find(ps, IndexOf(user, q));
    var p := UpdatedPeer(c, ps[i].1, q, hit);
    PutDistinctSlot(ps, i, p);
    TallyReplace(c, kind, ps, i, (ps[i].0, p));
  }

  lemma InsertDelta(c: Config, ps: PeerStore, user: UserId, q: Request, hit: bool, kind: Kind)
    requires Distinct(ps) && !kind.ActiveOf? && Find(ps, IndexOf(user, q)) == |ps|
    requires InsertChange(c, ps, user, q, hit).Ok?
    ensures var ch := InsertChange(c, ps, user, q, hit).value;
            Distinct(ch.peers) && Tally(c, kind, ch.peers) == Tally(c, kind, ps) + DeltaOf(kind, user, ch)
  {
    TallyPush(c, kind, ps, (IndexOf(user, q), NewPeer(q, hit)));
  }

  // ---- The limits ----

  /** A rejected insertion is undone completely: removing the entry just appended restores slots and order */
  lemma UndoneInsertion(ps: PeerStore, e: Entry)
    requires Find(ps, e.0) == |ps|
    ensures Find(ps + [e], e.0) == |ps|
    ensures SwapRemove(ps + [e], |ps|) == ps
  {
    var more := ps + [e];
    assert more[|ps|] == e;
    assert forall j :: 0 <= j < |ps| ==> more[j] == ps[j];
  }

  /** A new peer is turned away exactly when it would exceed the limit (never, for the largest limit) */
  lemma PeerLimitIff(c: Config, ps: PeerStore, user: UserId, q: Request, hit: bool)
    requires q.event != Stopped && Find(ps, IndexOf(user, q)) == |ps|
    ensures PeerChange(c, ps, user, q, hit).Err?
            <==> Tally(c, ActiveOf(user), ps) + 1 > c.maxPeersPerTorrentPerUser && c.maxPeersPerTorrentPerUser < U16_MAX
  {
    TallyPush(c, ActiveOf(user), ps, (IndexOf(user, q), NewPeer(q, hit)));
  }

  /** The announce brings an inactive peer back, which the limit check does not look at */
  predicate Revives(ps: PeerStore, user: UserId, q: Request) {
    var i := Find(ps, IndexOf(user, q));
    q.event != Stopped && i < |ps| && !ps[i].1.isActive
  }

  /** An announce changes the number of a user's active peers by at most one, and adds one exactly if it inserts or
      revives a peer of that user. */
  lemma ActiveAfterAnnounce(c: Config, ps: PeerStore, user: UserId, q: Request, hit: bool, u: UserId)
    requires PeerChange(c, ps, user, q, hit).Ok?
    ensures var i := Find(ps, IndexOf(user, q));
            Tally(c, ActiveOf(u), PeerChange(c, ps, user, q, hit).value.peers) ==
            Tally(c, ActiveOf(u), ps) +
            if u != user then 0
            else if q.event == Stopped then -Bit(ps[i].1.isActive)
            else if i < |ps| then Bit(Revives(ps, user, q))
            else 1
  {
    var i := Find(ps, IndexOf(user, q));
    if q.event == Stopped {
      TallySwapRemove(c, ActiveOf(u), ps, i);
    } else if i < |ps| {
      TallyReplace(c, ActiveOf(u), ps, i, (ps[i].0, UpdatedPeer(c, ps[i].1, q, hit)));
    } else {
      TallyPush(c, ActiveOf(u), ps, (IndexOf(user, q), NewPeer(q, hit)));
    }
  }

  /** An announce takes a user over the limit, and over what there was, exactly if it revives a peer of that user
      while the limit is already used up: the limit check does not look at revived peers. */
  lemma PeerLimitExceededIff(c: Config, ps: PeerStore, user: UserId, q: Request, hit: bool, u: UserId)
    requires PeerChange(c, ps, user, q, hit).Ok? && c.maxPeersPerTorrentPerUser < U16_MAX
    ensures Tally(c, ActiveOf(u), PeerChange(c, ps, user, q, hit).value.peers)
            > Max(c.maxPeersPerTorrentPerUser, Tally(c, ActiveOf(u), ps))
            <==> u == user && Revives(ps, user, q) && Tally(c, ActiveOf(u), ps) >= c.maxPeersPerTorrentPerUser
  {
    ActiveAfterAnnounce(c, ps, user, q, hit, u);
    if q.event != Stopped && Find(ps, IndexOf(user, q)) == |ps| {
      PeerLimitIff(c, ps, user, q, hit);
    }
  }

  /** Short of revivals, no announce takes any user over the limit */
  lemma PeerLimitKept(c: Config, ps: PeerStore, user: UserId, q: Request, hit: bool, u: UserId)
    requires PeerChange(c, ps, user, q, hit).Ok? && !Revives(ps, user, q)
    requires c.maxPeersPerTorrentPerUser < U16_MAX
    ensures Tally(c, ActiveOf(u), PeerChange(c, ps, user, q, hit).value.peers)
            <= Max(c.maxPeersPerTorrentPerUser, Tally(c, ActiveOf(u), ps))
  {
    PeerLimitExceededIff(c, ps, user, q, hit, u);
  }

  /** The announce of a peer that already held a leech slot in all but name: active and visible, and either a
      seeder that now leeches or a peer that was not connectable and now is. */
  predicate SlipsPastSlotLimit(c: Config, ps: PeerStore, user: UserId, q: Request) {
    var i := Find(ps, IndexOf(user, q));
    && q.event != Stopped && q.left > 0 && i < |ps|
    && ps[i].1.isActive && ps[i].1.isVisible
    && (c.requirePeerConnectivity ==> q.isConnectable)
    && (ps[i].1.isSeeder || (c.requirePeerConnectivity && !ps[i].1.isConnectable))
  }

  /** An announce that finds the slots taken adds a listed leech exactly when it slips past the limit; one
      that does not leech never adds any. */
  lemma SlotLimitIff(c: Config, ps: PeerStore, user: UserId, q: Request, hit: bool)
    requires PeerChange(c, ps, user, q, hit).Ok?
    ensures hit ==> (PeerChange(c, ps, user, q, hit).value.leecherDelta > 0
                     <==> SlipsPastSlotLimit(c, ps, user, q))
    ensures q.left == 0 ==> PeerChange(c, ps, user, q, hit).value.leecherDelta <= 0
  {
  }
}
