/** What an announce comes to, in terms of the request and of what was known of the peer before: which announces are
    accepted, what is remembered, counted and completed, and what the client is warned of. */
module AnnounceEffects {
  import opened MachineInts
  import opened Results
  import opened Tables
  import opened Updates
  import opened Errors
  import opened Warnings
  import opened Peers
  import opened Announces

  /** What is known of the announcing peer */
  function Known(ps: PeerStore, user: UserId, q: Request): Option<Peer> {
    Lookup(ps, PeerIndex(user, q.peerId))
  }

  /** An announce is refused exactly if a peer stops that is not known, or a new peer would be one too many active peers
      of its user; the largest limit is none. */
  lemma RefusedIff(c: Config, ps: PeerStore, user: UserId, q: Request, hit: bool)
    requires Distinct(ps)
    ensures PeerChange(c, ps, user, q, hit) == Err(StoppedPeerDoesNotExist)
            <==> q.event == Stopped && Known(ps, user, q).None?
    ensures PeerChange(c, ps, user, q, hit) == Err(PeersPerTorrentPerUserLimit(c.maxPeersPerTorrentPerUser))
            <==> && q.event != Stopped && Known(ps, user, q).None? && c.maxPeersPerTorrentPerUser < 65535
                 && |set e | e in ps && e.0.user == user && e.1.isActive| >= c.maxPeersPerTorrentPerUser
    ensures PeerChange(c, ps, user, q, hit).Err? ==>
              || PeerChange(c, ps, user, q, hit).error == StoppedPeerDoesNotExist
              || PeerChange(c, ps, user, q, hit).error == PeersPerTorrentPerUserLimit(c.maxPeersPerTorrentPerUser)
  {
    TallyIsNumber(c, ActiveOf(user), ps);
    assert Members(c, ActiveOf(user), ps) == set e | e in ps && e.0.user == user && e.1.isActive;
    if q.event != Stopped && Known(ps, user, q).None? {
      PeerLimitIff(c, ps, user, q, hit);
    }
  }

  /** The peer is as the announce says, for as long as it does not stop; whether it ever completed is kept; and other peers
      are left alone. */
  lemma PeerAfterwards(c: Config, ps: PeerStore, user: UserId, q: Request, hit: bool, k: PeerIndex)
    requires Distinct(ps) && PeerChange(c, ps, user, q, hit).Ok?
    ensures var ch, known := PeerChange(c, ps, user, q, hit).value, Known(ps, user, q);
            Lookup(ch.peers, k) ==
            if k != PeerIndex(user, q.peerId) then Lookup(ps, k)
            else if q.event == Stopped then None
            else Some(Peer(
              q.ip, q.port, q.left == 0, true, ch.isVisible, q.isConnectable,
              q.event == Completed || (known.Some? && known.value.hasSentCompleted), q.now, q.uploaded, q.downloaded))
  {
    var key := IndexOf(user, q);
    var i := Find(ps, key);
    if q.event == Stopped {
      LookupAfterRemoval(ps, i, k);
    } else if i < |ps| {
      PutSpec(ps, key, UpdatedPeer(c, ps[i].1, q, hit));
    } else {
      PutSpec(ps, key, NewPeer(q, hit));
    }
  }

  /** A peer is shown to others, unless the slots are taken and it was not a leech on the list before in all but name */
  lemma VisibleIff(c: Config, ps: PeerStore, user: UserId, q: Request, hit: bool)
    requires PeerChange(c, ps, user, q, hit).Ok?
    ensures PeerChange(c, ps, user, q, hit).value.isVisible <==>
            q.event != Stopped &&
            (hit ==> && Known(ps, user, q).Some? && Known(ps, user, q).value.isActive && Known(ps, user, q).value.isVisible
                     && q.left > 0 && (c.requirePeerConnectivity ==> q.isConnectable))
  {
  }

  /** A download is completed by an announce of a known leech that has nothing left, whatever event it names */
  predicate CompletesDownload(ps: PeerStore, user: UserId, q: Request) {
    q.event != Stopped && q.left == 0 && Known(ps, user, q).Some? && !Known(ps, user, q).value.isSeeder
  }

  lemma CompletedIff(c: Config, ps: PeerStore, user: UserId, q: Request, hit: bool)
    requires PeerChange(c, ps, user, q, hit).Ok?
    ensures PeerChange(c, ps, user, q, hit).value.timesCompletedDelta
            == if q.event != Stopped && q.left == 0 && Known(ps, user, q).Some? && !Known(ps, user, q).value.isSeeder
               then 1 else 0
  {
  }

  /** Bytes are counted from the peer's last report on. A new peer counts nothing; of a session that goes on nothing is
      counted if either report fell; and when the peer stops each of the two counts for itself. */
  lemma BytesCounted(c: Config, ps: PeerStore, user: UserId, q: Request, hit: bool)
    requires PeerChange(c, ps, user, q, hit).Ok?
    ensures var ch, known := PeerChange(c, ps, user, q, hit).value, Known(ps, user, q);
            && (known.None? ==> ch.uploadedDelta == 0 && ch.downloadedDelta == 0)
            && (known.Some? && q.event == Stopped ==>
                  && ch.uploadedDelta == Max(q.uploaded - known.value.uploaded, 0)
                  && ch.downloadedDelta == Max(q.downloaded - known.value.downloaded, 0))
            && (known.Some? && q.event != Stopped
                && (q.uploaded < known.value.uploaded || q.downloaded < known.value.downloaded) ==>
                  ch.uploadedDelta == 0 && ch.downloadedDelta == 0)
            && (known.Some? && q.event != Stopped
                && known.value.uploaded <= q.uploaded && known.value.downloaded <= q.downloaded ==>
                  && known.value.uploaded + ch.uploadedDelta == q.uploaded
                  && known.value.downloaded + ch.downloadedDelta == q.downloaded)
  {
  }

  /** The client is warned exactly of these: it announces again too soon, unless to say for the first time that it
      completed; its peer is hidden; and it cannot be connected to although it should. */
  lemma WarnedIff(c: Config, ps: PeerStore, user: UserId, q: Request, hit: bool)
    requires PeerChange(c, ps, user, q, hit).Ok?
    ensures var ws, known := PeerChange(c, ps, user, q, hit).value.warnings, Known(ps, user, q);
            && (RateLimitExceeded in ws <==>
                  && q.event != Stopped && known.Some?
                  && q.now < known.value.updatedAt + c.announceMinEnforced * 1_000_000_000
                  && !(q.event == Completed && !known.value.hasSentCompleted))
            && (HitDownloadSlotLimit in ws <==>
                  q.event != Stopped && !PeerChange(c, ps, user, q, hit).value.isVisible)
            && (ConnectivityIssueDetected in ws <==> c.requirePeerConnectivity && !q.isConnectable)
  {
    var too: seq<AnnounceWarning> := [RateLimitExceeded];
    var hidden: seq<AnnounceWarning> := [HitDownloadSlotLimit];
    var issue: seq<AnnounceWarning> := [ConnectivityIssueDetected];
    assert RateLimitExceeded in too && HitDownloadSlotLimit in hidden && ConnectivityIssueDetected in issue;
  }

  /** After a stop it is known whether another peer of the user is active */
  lemma ActiveAfterStopIff(c: Config, ps: PeerStore, user: UserId, q: Request, hit: bool)
    requires PeerChange(c, ps, user, q, hit).Ok?
    ensures PeerChange(c, ps, user, q, hit).value.isActiveAfterStop <==>
            q.event == Stopped
            && exists e :: e in PeerChange(c, ps, user, q, hit).value.peers && e.0.user == user && e.1.isActive
  {
    SomeActiveIff(c, user, PeerChange(c, ps, user, q, hit).value.peers);
  }

  lemma {:induction false} SomeActiveIff(c: Config, user: UserId, ps: PeerStore)
    ensures Tally(c, ActiveOf(user), ps) > 0 <==> exists e :: e in ps && e.0.user == user && e.1.isActive
  {
    if ps != [] {
      SomeActiveIff(c, user, ps[1..]);
      assert forall e :: e in ps <==> e == ps[0] || e in ps[1..];
    }
  }
}
