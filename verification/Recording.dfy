/** What an announce leaves in the queues. */
module Recording {
  import opened MachineInts
  import opened Results
  import opened Tables
  import opened FlushProtocol
  import opened Updates
  import opened Peers
  import opened Announces
  import opened Credits
  import opened AllQueues
  import opened Admissions
  import Swarms

  function PeerKeyOf(user: UserId, torrent: TorrentId, q: Request): PeerKey {
    PeerKey(user, torrent, q.peerId)
  }

  function PeerUpdateOf(q: Request, ch: Change): PeerUpdate {
    PeerUpdate(q.ip, q.port, q.agent, q.uploaded, q.downloaded, q.event != Stopped, q.left == 0, ch.isVisible, q.left,
               q.now, q.now, q.isConnectable)
  }

  /** Donors may be immune even if their group is not, or the other way round */
  function IsImmune(c: Config, user: Swarms.User, group: Group): bool {
    if user.isLifetime then c.lifetimeDonorImmunityOverride.GetOr(group.isImmune)
    else if user.isDonor then c.donorImmunityOverride.GetOr(group.isImmune)
    else group.isImmune
  }

  function HistoryUpdateOf(q: Request, ch: Change, isImmune: bool, credit: UserUpdate): HistoryUpdate {
    HistoryUpdate(q.agent, q.event != Stopped || ch.isActiveAfterStop, q.left == 0, isImmune, q.uploaded, q.downloaded,
                  ch.uploadedDelta, ch.downloadedDelta, credit.uploadedDelta, credit.downloadedDelta,
                  if q.event == Completed then Some(q.now) else None, q.now, q.now)
  }

  function RecordOf(call: Call, user: UserId, torrent: TorrentId): AnnounceRecord {
    var q := call.request;
    AnnounceRecord(user, torrent, q.uploaded, q.downloaded, q.left, call.corrupt, q.peerId, q.port,
                   Min(q.numwant, U16_MAX), q.now, q.event, call.key)
  }

  method RecordPeer(queues: QueueSet, user: UserId, torrent: TorrentId, q: Request, ch: Change)
    requires queues.Valid()
    modifies queues.peers
    ensures queues.Valid()
    ensures queues.peers.records
            == Upserted(queues.peers.merge, old(queues.peers.records), PeerKeyOf(user, torrent, q), PeerUpdateOf(q, ch))
  {
    queues.peers.Upsert(PeerKeyOf(user, torrent, q), PeerUpdateOf(q, ch));
  }

  method RecordHistory(queues: QueueSet, user: UserId, torrent: TorrentId, update: HistoryUpdate)
    requires queues.Valid()
    modifies queues.histories
    ensures queues.Valid()
    ensures queues.histories.records
            == Upserted(queues.histories.merge, old(queues.histories.records), HistoryKey(user, torrent), update)
  {
    queues.histories.Upsert(HistoryKey(user, torrent), update);
  }

  /** Nothing is credited for nothing */
  method RecordCredit(queues: QueueSet, user: UserId, credit: UserUpdate)
    requires queues.Valid()
    modifies queues.users
    ensures queues.Valid()
    ensures queues.users.records ==
            if credit.uploadedDelta != 0 || credit.downloadedDelta != 0
            then Upserted(queues.users.merge, old(queues.users.records), user, credit)
            else old(queues.users.records)
  {
    if credit.uploadedDelta != 0 || credit.downloadedDelta != 0 {
      queues.users.Upsert(user, credit);
    }
  }

  method RecordTorrent(queues: QueueSet, torrent: TorrentId, ch: Change)
    requires queues.Valid()
    modifies queues.torrents
    ensures queues.Valid()
    ensures queues.torrents.records
            == UpsertedAll(queues.torrents.merge, old(queues.torrents.records), Swarms.TorrentOpsOf(torrent, ch))
  {
    if ch.seederDelta != 0 || ch.leecherDelta != 0 || ch.timesCompletedDelta != 0
       || ch.uploadedDelta != 0 || ch.downloadedDelta != 0 {
      UpsertedOne(queues.torrents.merge, queues.torrents.records, torrent, Swarms.UpdateOfChange(ch));
      var balance := Swarms.ClampI64(ch.uploadedDelta) - Swarms.ClampI64(ch.downloadedDelta);
      queues.torrents.Upsert(
        torrent, TorrentUpdate(ch.seederDelta, ch.leecherDelta, ch.timesCompletedDelta, balance));
    }
  }

  method RecordAnnounce(queues: QueueSet, isEnabled: bool, record: AnnounceRecord)
    requires queues.Valid()
    modifies queues.announces
    ensures queues.Valid()
    ensures queues.announces.records
            == if isEnabled then old(queues.announces.records) + [record] else old(queues.announces.records)
  {
    if isEnabled {
      queues.announces.Upsert(record);
    }
  }

  /** A pass of the reaper changed the torrent's counts, or left them alone */
  method RecordReaped(queues: QueueSet, torrent: TorrentId, update: Option<TorrentUpdate>)
    requires queues.Valid()
    modifies queues.torrents
    ensures queues.Valid()
    ensures queues.torrents.records
            == UpsertedAll(queues.torrents.merge, old(queues.torrents.records),
                           match update case Some(v) => [(torrent, v)] case None => [])
  {
    match update {
      case Some(v) =>
        UpsertedOne(queues.torrents.merge, queues.torrents.records, torrent, v);
        queues.torrents.Upsert(torrent, v);
      case None =>
    }
  }

  // ---- What the queued updates say about the peers in memory ----

  /** The queued row of a peer says what is remembered of it in memory; of a stopped peer it says that it is gone */
  lemma UpdateMirrorsPeer(c: Config, ps: PeerStore, user: UserId, q: Request, hit: bool)
    requires Distinct(ps) && PeerChange(c, ps, user, q, hit).Ok?
    ensures var ch := PeerChange(c, ps, user, q, hit).value;
            var row := PeerUpdateOf(q, ch);
            match Lookup(ch.peers, IndexOf(user, q))
            case Some(p) =>
              && row.ip == p.ip && row.port == p.port && row.uploaded == p.uploaded && row.downloaded == p.downloaded
              && row.isActive == p.isActive && row.isSeeder == p.isSeeder && row.isVisible == p.isVisible
              && row.connectable == p.isConnectable && row.updatedAt == p.updatedAt && (row.left == 0 <==> p.isSeeder)
            case None => q.event == Stopped && !row.isActive && !row.isVisible
  {
    var key := IndexOf(user, q);
    var i := Find(ps, key);
    if q.event == Stopped {
      SwapRemoveDistinct(ps, i);
      LookupIsMembership(PeerChange(c, ps, user, q, hit).value.peers, key);
    } else if i < |ps| {
      PutSpec(ps, key, UpdatedPeer(c, ps[i].1, q, hit));
    } else {
      PutSpec(ps, key, NewPeer(q, hit));
    }
  }

  /** A history is active exactly if its user still has an active peer on the torrent */
  lemma HistoryIsActiveIff(c: Config, ps: PeerStore, user: UserId, q: Request, hit: bool, isImmune: bool, credit: UserUpdate)
    requires PeerChange(c, ps, user, q, hit).Ok?
    ensures var ch := PeerChange(c, ps, user, q, hit).value;
            HistoryUpdateOf(q, ch, isImmune, credit).isActive <==> Tally(c, ActiveOf(user), ch.peers) > 0
  {
    if q.event != Stopped {
      var ch := PeerChange(c, ps, user, q, hit).value;
      var i := Find(ps, IndexOf(user, q));
      TallyAround(c, ActiveOf(user), ch.peers, i);
    }
  }

  // ---- What ends up in the rows of one announce ----

  /** The donor's immunity overrides the group's, if it is set, and the lifetime donor's overrides the donor's */
  lemma ImmunityIs(c: Config, user: Swarms.User, group: Group)
    ensures user.isLifetime && c.lifetimeDonorImmunityOverride.Some? ==>
              IsImmune(c, user, group) == c.lifetimeDonorImmunityOverride.value
    ensures !user.isLifetime && user.isDonor && c.donorImmunityOverride.Some? ==>
              IsImmune(c, user, group) == c.donorImmunityOverride.value
    ensures (user.isLifetime ==> c.lifetimeDonorImmunityOverride.None?)
            && (!user.isLifetime && user.isDonor ==> c.donorImmunityOverride.None?) ==>
              IsImmune(c, user, group) == group.isImmune
  {
  }

  /** The history that a first announce leaves behind: credited, counted and reported bytes each in their column, and a
      completion exactly for the completed event. */
  lemma HistoryRowIs(q: Request, ch: Change, isImmune: bool, credit: UserUpdate)
    ensures AppliedHistoryUpdate(None, HistoryUpdateOf(q, ch, isImmune, credit))
            == HistoryRow(
              agent := q.agent,
              uploaded := credit.uploadedDelta, actualUploaded := ch.uploadedDelta, clientUploaded := q.uploaded,
              downloaded := credit.downloadedDelta, actualDownloaded := ch.downloadedDelta, clientDownloaded := q.downloaded,
              seeder := q.left == 0, active := q.event != Stopped || ch.isActiveAfterStop, immune := isImmune,
              createdAt := q.now, updatedAt := q.now, completedAt := if q.event == Completed then Some(q.now) else None)
  {
  }

  /** The row of a peer after its first announce */
  lemma PeerRowIs(user: UserId, torrent: TorrentId, q: Request, ch: Change)
    ensures PeerKeyOf(user, torrent, q) == PeerKey(user := user, torrent := torrent, peer := q.peerId)
    ensures AppliedPeerUpdate(None, PeerUpdateOf(q, ch))
            == PeerUpdate(
              ip := q.ip, port := q.port, agent := q.agent, uploaded := q.uploaded, downloaded := q.downloaded,
              isActive := q.event != Stopped, isSeeder := q.left == 0, isVisible := ch.isVisible, left := q.left,
              createdAt := q.now, updatedAt := q.now, connectable := q.isConnectable)
  {
  }

  /** What the announce log says of an announce; of the number of wanted peers it keeps 16 bits, saturated */
  lemma LoggedIs(call: Call, user: UserId, torrent: TorrentId)
    ensures RecordOf(call, user, torrent)
            == AnnounceRecord(
              user := user, torrent := torrent, uploaded := call.request.uploaded, downloaded := call.request.downloaded,
              left := call.request.left, corrupt := call.corrupt, peerId := call.request.peerId,
              port := call.request.port,
              numwant := if call.request.numwant > 65535 then 65535 else call.request.numwant,
              createdAt := call.request.now, event := call.request.event, key := call.key)
  {
  }
}
