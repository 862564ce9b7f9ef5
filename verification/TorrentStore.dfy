/** A torrent of the store, updated in place by announces and by the reaper while it is locked. */
module TorrentStore {
  import opened MachineInts
  import opened Results
  import opened Tables
  import opened Updates
  import opened Errors
  import opened Warnings
  import opened Peers
  import opened Announces
  import opened Reaper
  import opened Swarms
  import Passes

  class Swarm {
    const id: TorrentId
    const status: TorrentStatus
    const isDeleted: bool
    const downloadFactor: u8
    const uploadFactor: u8
    var peers: PeerStore
    var seeders: u32
    var leechers: u32
    var timesCompleted: u32

    function Value(): Torrent
      reads this
    {
      Torrent(id, status, isDeleted, peers, seeders, leechers, timesCompleted, downloadFactor, uploadFactor)
    }

    constructor (t: Torrent)
      ensures Value() == t
    {
      id, status, isDeleted := t.id, t.status, t.isDeleted;
      downloadFactor, uploadFactor := t.downloadFactor, t.uploadFactor;
      peers, seeders, leechers, timesCompleted := t.peers, t.seeders, t.leechers, t.timesCompleted;
    }

    /** Whether the user has an active peer */
    method HasActivePeer(c: Config, user: UserId) returns (found: bool)
      ensures found <==> Tally(c, ActiveOf(user), peers) > 0
    {
      found := false;
      for i := 0 to |peers|
        invariant Tally(c, ActiveOf(user), peers[..i]) == 0
      {
        assert peers[..i + 1] == peers[..i] + [peers[i]];
        TallyPush(c, ActiveOf(user), peers[..i], peers[i]);
        if peers[i].0.user == user && peers[i].1.isActive {
          TallyAround(c, ActiveOf(user), peers, i);
          return true;
        }
      }
      assert peers[..|peers|] == peers;
    }

    /** Counts the user's active peers up to the first one too many, in 16 bits */
    method ExceedsLimit(c: Config, user: UserId) returns (exceeded: bool)
      ensures exceeded <==> LimitExceeded(c, Tally(c, ActiveOf(user), peers))
    {
      var peerCount: u16 := 0;
      for i := 0 to |peers|
        invariant c.maxPeersPerTorrentPerUser < U16_MAX ==>
                    peerCount == Tally(c, ActiveOf(user), peers[..i]) <= c.maxPeersPerTorrentPerUser
      {
        assert peers[..i + 1] == peers[..i] + [peers[i]];
        TallyPush(c, ActiveOf(user), peers[..i], peers[i]);
        if peers[i].0.user == user && peers[i].1.isActive {
          peerCount := if peerCount < U16_MAX then peerCount + 1 else 0;
          if peerCount > c.maxPeersPerTorrentPerUser {
            TallyConcat(c, ActiveOf(user), peers[..i + 1], peers[i + 1..]);
            assert peers == peers[..i + 1] + peers[i + 1..];
            return true;
          }
        }
      }
      assert peers[..|peers|] == peers;
      exceeded := false;
    }

    method Stop(c: Config, user: UserId, q: Request, warnings: WarningCollection)
        returns (r: Result<Change, AnnounceError>)
      requires warnings.warnings == ConnectivityWarnings(c, q)
      modifies `peers
      ensures r == StoppedChange(c, old(peers), user, q)
      ensures peers == if r.Ok? then r.value.peers else old(peers)
    {
      var i := Find(peers, IndexOf(user, q));
      if i == |peers| {
        return Err(StoppedPeerDoesNotExist);
      }
      var peer := peers[i].1;
      peers := SwapRemove(peers, i);
      var uploadedDelta := SaturatingSubU64(q.uploaded, peer.uploaded);
      var downloadedDelta := SaturatingSubU64(q.downloaded, peer.downloaded);
      var leecherDelta := 0 - Bit(IsIncludedInLeechList(c, peer));
      var seederDelta := 0 - Bit(IsIncludedInSeedList(c, peer));
      var isActiveAfterStop := HasActivePeer(c, user);
      r := Ok(Change(peers, seederDelta, leecherDelta, 0, uploadedDelta, downloadedDelta, false, isActiveAfterStop,
                     warnings.warnings));
    }

    /** The fields of a known peer, one after the other: visibility looks at the new seeding state and
        connectability, but at the old activity and visibility. */
    static method ModifyPeer(c: Config, oldPeer: Peer, q: Request, hit: bool) returns (peer: Peer)
      ensures peer == UpdatedPeer(c, oldPeer, q, hit)
    {
      peer := oldPeer;
      peer := peer.(ip := q.ip);
      peer := peer.(port := q.port);
      peer := peer.(isSeeder := q.left == 0);
      peer := peer.(isConnectable := q.isConnectable);
      peer := peer.(isVisible := IsIncludedInLeechList(c, peer) || !hit);
      peer := peer.(isActive := true);
      peer := peer.(hasSentCompleted := peer.hasSentCompleted || q.event == Completed);
      peer := peer.(updatedAt := q.now);
      peer := peer.(uploaded := q.uploaded);
      peer := peer.(downloaded := q.downloaded);
    }

    /** What was transferred since the last announce */
    static method CompareReports(oldPeer: Peer, q: Request) returns (uploadedDelta: u64, downloadedDelta: u64)
      ensures (uploadedDelta, downloadedDelta) == SessionDelta(oldPeer, q)
    {
      if q.uploaded < oldPeer.uploaded || q.downloaded < oldPeer.downloaded {
        uploadedDelta, downloadedDelta := 0, 0;
      } else {
        uploadedDelta := q.uploaded - oldPeer.uploaded;
        downloadedDelta := q.downloaded - oldPeer.downloaded;
      }
    }

    method WarnOfUpdate(c: Config, oldPeer: Peer, peer: Peer, q: Request, warnings: WarningCollection)
      modifies warnings
      ensures warnings.warnings == old(warnings.warnings) + SlotWarnings(peer) + RateWarnings(c, oldPeer, q)
    {
      if !peer.isVisible {
        warnings.Add(HitDownloadSlotLimit);
      }
      assert warnings.warnings == old(warnings.warnings) + SlotWarnings(peer);
      if oldPeer.updatedAt + c.announceMinEnforced * SECOND > q.now
         && (q.event != Completed || oldPeer.hasSentCompleted) {
        warnings.Add(RateLimitExceeded);
      }
    }

    method UpdatePeer(c: Config, i: nat, q: Request, hit: bool, warnings: WarningCollection) returns (ch: Change)
      requires i < |peers| && warnings.warnings == ConnectivityWarnings(c, q)
      modifies `peers, warnings
      ensures ch == UpdateChange(c, old(peers), i, q, hit)
      ensures peers == ch.peers && warnings.warnings == ch.warnings
    {
      var oldPeer := peers[i].1;
      var peer := ModifyPeer(c, oldPeer, q, hit);
      peers := peers[i := (peers[i].0, peer)];
      var leecherDelta := Bit(IsIncludedInLeechList(c, peer)) - Bit(IsIncludedInLeechList(c, oldPeer));
      var seederDelta := Bit(IsIncludedInSeedList(c, peer)) - Bit(IsIncludedInSeedList(c, oldPeer));
      var timesCompletedDelta := Bit(peer.isSeeder && !oldPeer.isSeeder);
      var uploadedDelta, downloadedDelta := CompareReports(oldPeer, q);
      WarnOfUpdate(c, oldPeer, peer, q, warnings);
      ch := Change(peers, seederDelta, leecherDelta, timesCompletedDelta, uploadedDelta, downloadedDelta,
                   peer.isVisible, false, warnings.warnings);
    }

    /** The new peer is entered first and taken out again if it is one too many */
    method InsertPeer(c: Config, user: UserId, q: Request, hit: bool, warnings: WarningCollection)
        returns (r: Result<Change, AnnounceError>)
      requires Find(peers, IndexOf(user, q)) == |peers| && warnings.warnings == ConnectivityWarnings(c, q)
      modifies `peers, warnings
      ensures r == InsertChange(c, old(peers), user, q, hit)
      ensures peers == if r.Ok? then r.value.peers else old(peers)
      ensures r.Ok? ==> warnings.warnings == r.value.warnings
    {
      var peer := Peer(q.ip, q.port, q.left == 0, true, !hit, q.isConnectable, q.event == Completed, q.now,
                       q.uploaded, q.downloaded);
      UndoneInsertion(peers, (IndexOf(user, q), peer));
      peers := peers + [(IndexOf(user, q), peer)];
      if !peer.isVisible {
        warnings.Add(HitDownloadSlotLimit);
      }
      assert warnings.warnings == ConnectivityWarnings(c, q) + SlotWarnings(peer);
      var exceeded := ExceedsLimit(c, user);
      if exceeded {
        peers := SwapRemove(peers, Find(peers, IndexOf(user, q)));
        return Err(PeersPerTorrentPerUserLimit(c.maxPeersPerTorrentPerUser));
      }
      r := Ok(Change(peers, Bit(IsIncludedInSeedList(c, peer)), Bit(IsIncludedInLeechList(c, peer)), 0, 0, 0,
                     peer.isVisible, false, warnings.warnings));
    }

    /** An announce, up to the counters: a rejection leaves the torrent as it was */
    method Announce(c: Config, user: UserId, q: Request, hit: bool, warnings: WarningCollection)
        returns (r: Result<Change, AnnounceError>)
      requires warnings.warnings == ConnectivityWarnings(c, q)
      modifies this, warnings
      ensures r == PeerChange(c, old(peers), user, q, hit)
      ensures Value() == if r.Ok? then AnnouncedTorrent(old(Value()), r.value) else old(Value())
      ensures r.Ok? ==> warnings.warnings == r.value.warnings
    {
      var i := Find(peers, IndexOf(user, q));
      if q.event == Stopped {
        r := Stop(c, user, q, warnings);
      } else if i < |peers| {
        var ch := UpdatePeer(c, i, q, hit, warnings);
        r := Ok(ch);
      } else {
        r := InsertPeer(c, user, q, hit, warnings);
      }
      if r.Ok? {
        seeders := SaturatingAddSigned(seeders, r.value.seederDelta);
        leechers := SaturatingAddSigned(leechers, r.value.leecherDelta);
        timesCompleted := SaturatingAddU32(timesCompleted, r.value.timesCompletedDelta);
      }
    }

    /** `IndexMap::retain` */
    method Retain(inactiveCutoff: Time)
      modifies `peers
      ensures peers == Retained(inactiveCutoff, old(peers))
    {
      var kept: PeerStore := [];
      for i := 0 to |peers|
        invariant peers == old(peers)
        invariant kept + Retained(inactiveCutoff, peers[i..]) == Retained(inactiveCutoff, peers)
      {
        assert peers[i..][0] == peers[i] && peers[i..][1..] == peers[i + 1..];
        if inactiveCutoff <= peers[i].1.updatedAt || peers[i].1.isActive {
          kept := kept + [peers[i]];
        }
      }
      peers := kept;
    }

    /** Marks a peer inactive if it stopped announcing, and takes it off its user's counters if it was listed */
    method ExpirePeer(c: Config, activeCutoff: Time, i: nat, users: map<UserId, User>, seederDelta: i32, leecherDelta: i32)
        returns (users': map<UserId, User>, seederDelta': i32, leecherDelta': i32)
      requires i < |peers|
      modifies `peers
      ensures Progress(peers, users', seederDelta', leecherDelta')
              == ExpiredOne(c, activeCutoff, i, Progress(old(peers), users, seederDelta, leecherDelta))
    {
      users', seederDelta', leecherDelta' := users, seederDelta, leecherDelta;
      var (index, peer) := peers[i];
      if peer.updatedAt < activeCutoff && peer.isActive {
        if IsIncludedInPeerList(c, peer) {
          users' := WithoutPeer(users, index.user, peer.isSeeder);
          if peer.isSeeder {
            seederDelta' := WrapI32(seederDelta - 1);
          } else {
            leecherDelta' := WrapI32(leecherDelta - 1);
          }
        }
        peers := peers[i := (index, peer.(isActive := false))];
      }
    }

    method Expire(c: Config, activeCutoff: Time, users: map<UserId, User>)
        returns (users': map<UserId, User>, seederDelta: i32, leecherDelta: i32)
      modifies `peers
      ensures peers == AgedAll(activeCutoff, old(peers))
      ensures users' == Passes.ApplyOps(users, OpsOfEffects(EffectsOfPeers(c, activeCutoff, old(peers))))
      ensures seederDelta == WrapI32(Tally(c, Seeds, peers) - Tally(c, Seeds, old(peers)))
      ensures leecherDelta == WrapI32(Tally(c, Leeches, peers) - Tally(c, Leeches, old(peers)))
    {
      users', seederDelta, leecherDelta := ExpireEach(c, activeCutoff, users);
      ExpiredInTheEnd(c, activeCutoff, old(peers), users);
    }

    method ExpireEach(c: Config, activeCutoff: Time, users: map<UserId, User>)
        returns (users': map<UserId, User>, seederDelta: i32, leecherDelta: i32)
      modifies `peers
      ensures Progress(peers, users', seederDelta, leecherDelta)
              == ExpiredFrom(c, activeCutoff, 0, Progress(old(peers), users, 0, 0))
    {
      users', seederDelta, leecherDelta := users, 0, 0;
      ghost var goal := ExpiredFrom(c, activeCutoff, 0, Progress(peers, users, 0, 0));
      for i := 0 to |peers|
        invariant |peers| == |old(peers)|
        invariant ExpiredFrom(c, activeCutoff, i, Progress(peers, users', seederDelta, leecherDelta)) == goal
      {
        users', seederDelta, leecherDelta := ExpirePeer(c, activeCutoff, i, users', seederDelta, leecherDelta);
      }
    }

    /** The reaper's pass over the torrent, with the update it queues, if any */
    method Reap(c: Config, activeCutoff: Time, inactiveCutoff: Time, users: map<UserId, User>)
        returns (users': map<UserId, User>, update: Option<TorrentUpdate>)
      modifies this
      ensures Value() == ReapedTorrent(c, activeCutoff, inactiveCutoff, old(Value()))
      ensures users' == Passes.ApplyOps(users, Passes.UserOpsOf(c, activeCutoff, inactiveCutoff, old(Value())))
      ensures ReapOps(c, activeCutoff, inactiveCutoff, old(Value()))
              == match update case Some(v) => [(id, v)] case None => []
    {
      ghost var before := peers;
      Retain(inactiveCutoff);
      RetainedTally(c, Seeds, inactiveCutoff, before);
      RetainedTally(c, Leeches, inactiveCutoff, before);
      var seederDelta, leecherDelta;
      users', seederDelta, leecherDelta := Expire(c, activeCutoff, users);
      assert seederDelta == DroppedDelta(c, Seeds, activeCutoff, inactiveCutoff, before);
      assert leecherDelta == DroppedDelta(c, Leeches, activeCutoff, inactiveCutoff, before);
      update := None;
      if seederDelta != 0 || leecherDelta != 0 {
        seeders := SaturatingAddSigned(seeders, seederDelta);
        leechers := SaturatingAddSigned(leechers, leecherDelta);
        update := Some(TorrentUpdate(seederDelta, leecherDelta, 0, 0));
      }
    }
  }

  /** `entry(…).and_modify(…)` with a saturating decrement */
  function WithoutPeer(users: map<UserId, User>, user: UserId, isSeeder: bool): map<UserId, User> {
    if user !in users then users
    else if isSeeder then users[user := users[user].(numSeeding := SaturatingSubU32(users[user].numSeeding, 1))]
    else users[user := users[user].(numLeeching := SaturatingSubU32(users[user].numLeeching, 1))]
  }

  function UsersAfter(c: Config, activeCutoff: Time, e: Entry, users: map<UserId, User>): map<UserId, User> {
    if IsExpired(activeCutoff, e.1) && IsIncludedInPeerList(c, e.1)
    then WithoutPeer(users, e.0.user, e.1.isSeeder) else users
  }

  /** What ageing a peer changes about a count */
  function CountChange(c: Config, kind: Kind, activeCutoff: Time, e: Entry): int {
    Bit(Belongs(c, kind, Aged(activeCutoff, e))) - Bit(Belongs(c, kind, e))
  }

  function PrefixChange(c: Config, kind: Kind, activeCutoff: Time, all: PeerStore, i: nat): int
    requires i <= |all|
  {
    Tally(c, kind, AgedAll(activeCutoff, all[..i])) - Tally(c, kind, all[..i])
  }

  /** The delta after the first `i` peers, in 32 bits */
  function Accumulated(c: Config, kind: Kind, activeCutoff: Time, all: PeerStore, i: nat): i32
    requires i <= |all|
  {
    WrapI32(PrefixChange(c, kind, activeCutoff, all, i))
  }

  lemma AccumulatedStep(c: Config, kind: Kind, activeCutoff: Time, all: PeerStore, i: nat)
    requires i < |all|
    ensures WrapI32(Accumulated(c, kind, activeCutoff, all, i) + CountChange(c, kind, activeCutoff, all[i]))
            == Accumulated(c, kind, activeCutoff, all, i + 1)
  {
    PrefixChangeStep(c, kind, activeCutoff, all, i);
    WrapAdds(PrefixChange(c, kind, activeCutoff, all, i), CountChange(c, kind, activeCutoff, all[i]));
  }

  /** What the loop works on */
  datatype Progress = Progress(peers: PeerStore, users: map<UserId, User>, seederDelta: i32, leecherDelta: i32)

  function ExpiredOne(c: Config, activeCutoff: Time, i: nat, pr: Progress): Progress
    requires i < |pr.peers|
  {
    var e := pr.peers[i];
    Progress(pr.peers[i := Aged(activeCutoff, e)], UsersAfter(c, activeCutoff, e, pr.users),
             WrapI32(pr.seederDelta + CountChange(c, Seeds, activeCutoff, e)),
             WrapI32(pr.leecherDelta + CountChange(c, Leeches, activeCutoff, e)))
  }

  /** The loop from peer `i` on */
  function ExpiredFrom(c: Config, activeCutoff: Time, i: nat, pr: Progress): Progress
    decreases |pr.peers| - i
  {
    if i >= |pr.peers| then pr else ExpiredFrom(c, activeCutoff, i + 1, ExpiredOne(c, activeCutoff, i, pr))
  }

  /** The loop has dealt with the first `i` peers */
  predicate AgedSoFar(activeCutoff: Time, all: PeerStore, i: nat, peers: PeerStore) {
    i <= |all| && |peers| == |all| && peers == AgedAll(activeCutoff, all[..i]) + all[i..]
  }

  lemma NextPeer(activeCutoff: Time, all: PeerStore, i: nat, peers: PeerStore)
    requires i < |all| && AgedSoFar(activeCutoff, all, i, peers)
    ensures peers[i] == all[i]
    ensures AgedSoFar(activeCutoff, all, i + 1, peers[i := Aged(activeCutoff, all[i])])
  {
    ExpireStep(activeCutoff, all, i);
  }

  /** The loop ages all peers */
  lemma {:induction false} PeersInTheEnd(c: Config, activeCutoff: Time, all: PeerStore, i: nat, pr: Progress)
    requires AgedSoFar(activeCutoff, all, i, pr.peers)
    ensures ExpiredFrom(c, activeCutoff, i, pr).peers == AgedAll(activeCutoff, all)
    decreases |all| - i
  {
    if i < |all| {
      NextPeer(activeCutoff, all, i, pr.peers);
      PeersInTheEnd(c, activeCutoff, all, i + 1, ExpiredOne(c, activeCutoff, i, pr));
    } else {
      assert all[..i] == all && all[i..] == [];
    }
  }

  /** It takes the listed ones off their users' counters */
  lemma {:induction false} UsersInTheEnd(c: Config, activeCutoff: Time, all: PeerStore, i: nat, pr: Progress)
    requires AgedSoFar(activeCutoff, all, i, pr.peers)
    ensures ExpiredFrom(c, activeCutoff, i, pr).users
            == Passes.ApplyOps(pr.users, OpsOfEffects(EffectsOfPeers(c, activeCutoff, all[i..])))
    decreases |all| - i
  {
    if i < |all| {
      NextPeer(activeCutoff, all, i, pr.peers);
      NextEffect(c, activeCutoff, all, i, pr.users);
      UsersInTheEnd(c, activeCutoff, all, i + 1, ExpiredOne(c, activeCutoff, i, pr));
    } else {
      assert all[i..] == [];
    }
  }

  /** Its deltas are the changes of the counts, in 32 bits */
  lemma {:induction false} DeltasInTheEnd(c: Config, activeCutoff: Time, all: PeerStore, i: nat, pr: Progress)
    requires AgedSoFar(activeCutoff, all, i, pr.peers)
    requires pr.seederDelta == Accumulated(c, Seeds, activeCutoff, all, i)
    requires pr.leecherDelta == Accumulated(c, Leeches, activeCutoff, all, i)
    ensures ExpiredFrom(c, activeCutoff, i, pr).seederDelta == Accumulated(c, Seeds, activeCutoff, all, |all|)
    ensures ExpiredFrom(c, activeCutoff, i, pr).leecherDelta == Accumulated(c, Leeches, activeCutoff, all, |all|)
    decreases |all| - i
  {
    if i < |all| {
      NextPeer(activeCutoff, all, i, pr.peers);
      AccumulatedStep(c, Seeds, activeCutoff, all, i);
      AccumulatedStep(c, Leeches, activeCutoff, all, i);
      DeltasInTheEnd(c, activeCutoff, all, i + 1, ExpiredOne(c, activeCutoff, i, pr));
    }
  }

  lemma ExpiredInTheEnd(c: Config, activeCutoff: Time, all: PeerStore, users: map<UserId, User>)
    ensures var pr := ExpiredFrom(c, activeCutoff, 0, Progress(all, users, 0, 0));
            && pr.peers == AgedAll(activeCutoff, all)
            && pr.users == Passes.ApplyOps(users, OpsOfEffects(EffectsOfPeers(c, activeCutoff, all)))
            && pr.seederDelta == WrapI32(Tally(c, Seeds, AgedAll(activeCutoff, all)) - Tally(c, Seeds, all))
            && pr.leecherDelta == WrapI32(Tally(c, Leeches, AgedAll(activeCutoff, all)) - Tally(c, Leeches, all))
  {
    var start := Progress(all, users, 0, 0);
    assert all[0..] == all && all[..0] == [] && all[..|all|] == all;
    PeersInTheEnd(c, activeCutoff, all, 0, start);
    UsersInTheEnd(c, activeCutoff, all, 0, start);
    DeltasFromStart(c, activeCutoff, all, users);
  }

  lemma DeltasFromStart(c: Config, activeCutoff: Time, all: PeerStore, users: map<UserId, User>)
    ensures var pr := ExpiredFrom(c, activeCutoff, 0, Progress(all, users, 0, 0));
            && pr.seederDelta == WrapI32(Tally(c, Seeds, AgedAll(activeCutoff, all)) - Tally(c, Seeds, all))
            && pr.leecherDelta == WrapI32(Tally(c, Leeches, AgedAll(activeCutoff, all)) - Tally(c, Leeches, all))
  {
    assert all[..0] == [] && all[..|all|] == all;
    DeltasInTheEnd(c, activeCutoff, all, 0, Progress(all, users, 0, 0));
  }

  /** The loop's next peer */
  lemma ExpireStep(activeCutoff: Time, all: PeerStore, i: nat)
    requires i < |all|
    ensures AgedAll(activeCutoff, all[..i + 1]) + all[i + 1..]
            == (AgedAll(activeCutoff, all[..i]) + all[i..])[i := Aged(activeCutoff, all[i])]
  {
    assert all[..i + 1] == all[..i] + [all[i]];
    AgedAllSnoc(activeCutoff, all[..i], all[i]);
  }

  lemma PrefixChangeStep(c: Config, kind: Kind, activeCutoff: Time, all: PeerStore, i: nat)
    requires i < |all|
    ensures PrefixChange(c, kind, activeCutoff, all, i + 1)
            == PrefixChange(c, kind, activeCutoff, all, i) + CountChange(c, kind, activeCutoff, all[i])
  {
    assert all[..i + 1] == all[..i] + [all[i]];
    AgedAllSnoc(activeCutoff, all[..i], all[i]);
    TallyPush(c, kind, all[..i], all[i]);
    TallyPush(c, kind, AgedAll(activeCutoff, all[..i]), Aged(activeCutoff, all[i]));
  }

  lemma {:induction false} AgedAllSnoc(activeCutoff: Time, ps: PeerStore, e: Entry)
    ensures AgedAll(activeCutoff, ps + [e]) == AgedAll(activeCutoff, ps) + [Aged(activeCutoff, e)]
  {
    if ps == [] {
      assert ps + [e] == [e] && [e][1..] == [];
    } else {
      AgedAllSnoc(activeCutoff, ps[1..], e);
      assert (ps + [e])[0] == ps[0] && (ps + [e])[1..] == ps[1..] + [e];
    }
  }

  lemma NextEffect(c: Config, activeCutoff: Time, all: PeerStore, i: nat, users: map<UserId, User>)
    requires i < |all|
    ensures Passes.ApplyOps(users, OpsOfEffects(EffectsOfPeers(c, activeCutoff, all[i..])))
            == Passes.ApplyOps(UsersAfter(c, activeCutoff, all[i], users),
                               OpsOfEffects(EffectsOfPeers(c, activeCutoff, all[i + 1..])))
  {
    var (index, peer) := all[i];
    var rest := EffectsOfPeers(c, activeCutoff, all[i + 1..]);
    assert all[i..][0] == all[i] && all[i..][1..] == all[i + 1..];
    if IsExpired(activeCutoff, peer) && IsIncludedInPeerList(c, peer) {
      var effect := if peer.isSeeder then SeedGone(index.user) else LeechGone(index.user);
      assert EffectsOfPeers(c, activeCutoff, all[i..]) == [effect] + rest;
      assert ([effect] + rest)[1..] == rest;
      assert ([OpOfEffect(effect)] + OpsOfEffects(rest))[1..] == OpsOfEffects(rest);
      assert AdjustedUsers(users, OpOfEffect(effect)) == WithoutPeer(users, index.user, peer.isSeeder);
    } else {
      assert EffectsOfPeers(c, activeCutoff, all[i..]) == rest;
    }
  }
}
