/** The announce log and the five update queues together: what they hold, and how a flush empties them. */
module AllQueues {
  import opened MachineInts
  import opened Results
  import opened Tables
  import opened Updates
  import opened Announces
  import opened Queues

  datatype AnnounceRecord = AnnounceRecord(
    user: UserId, torrent: TorrentId, uploaded: u64, downloaded: u64, left: u64, corrupt: Option<u64>,
    peerId: PeerId, port: u16, numwant: u16, createdAt: Time, event: Event, key: Option<string>)

  /** The most records a query of 65535 bindings can insert, at 12 bindings each */
  const ANNOUNCE_LIMIT: nat := 65535 / 12

  /** A plain list, to which failed batches are appended again */
  class AnnounceLog {
    var records: seq<AnnounceRecord>

    constructor ()
      ensures records == []
    {
      records := [];
    }

    method Upsert(r: AnnounceRecord)
      modifies this
      ensures records == old(records) + [r]
    {
      records := records + [r];
    }

    method TakeBatch() returns (batch: seq<AnnounceRecord>)
      modifies this
      ensures batch + records == old(records)
      ensures |batch| == Min(ANNOUNCE_LIMIT, |old(records)|)
    {
      var n := Min(ANNOUNCE_LIMIT, |records|);
      batch := records[..n];
      records := records[n..];
    }

    method UpsertBatch(batch: seq<AnnounceRecord>)
      modifies this
      ensures records == old(records) + batch
    {
      records := records + batch;
    }

    method Flush(ok: bool)
      modifies this
      ensures var n := Min(ANNOUNCE_LIMIT, |old(records)|);
              records == if ok then old(records)[n..] else old(records)[n..] + old(records)[..n]
    {
      var batch := TakeBatch();
      if !ok {
        UpsertBatch(batch);
      }
    }
  }

  /** What becomes of the batches of one flush, queue by queue */
  datatype Outcomes = Outcomes(
    announces: bool, histories: nat -> bool, peers: nat -> bool, torrents: nat -> bool, users: nat -> bool,
    unregistered: nat -> bool)

  ghost predicate AllSucceed(o: Outcomes) {
    o.announces && forall i: nat :: o.histories(i) && o.peers(i) && o.torrents(i) && o.users(i) && o.unregistered(i)
  }

  /** How many records each of the six holds */
  datatype Lengths = Lengths(
    announces: nat, histories: nat, peers: nat, torrents: nat, users: nat, unregistered: nat)
  {
    predicate AllZero() {
      announces == 0 && histories == 0 && peers == 0 && torrents == 0 && users == 0 && unregistered == 0
    }

    predicate AtMost(o: Lengths) {
      && announces <= o.announces && histories <= o.histories && peers <= o.peers && torrents <= o.torrents
      && users <= o.users && unregistered <= o.unregistered
    }

    /** What is left after a flush that takes up to the given amounts */
    function Less(o: Lengths): Lengths {
      Lengths(Max(announces - o.announces, 0), Max(histories - o.histories, 0), Max(peers - o.peers, 0),
              Max(torrents - o.torrents, 0), Max(users - o.users, 0), Max(unregistered - o.unregistered, 0))
    }
  }

  class QueueSet {
    const announces: AnnounceLog
    const histories: Queue<HistoryKey, HistoryUpdate>
    const peers: Queue<PeerKey, PeerUpdate>
    const torrents: Queue<TorrentId, TorrentUpdate>
    const users: Queue<UserId, UserUpdate>
    const unregistered: Queue<UnregisteredKey, UnregisteredUpdate>

    ghost predicate Valid()
      reads this, announces, histories, peers, torrents, users, unregistered
    {
      && histories.Valid() && peers.Valid() && torrents.Valid() && users.Valid() && unregistered.Valid()
      && Separate()
    }

    /** Six different objects */
    ghost predicate Separate() {
      var all: seq<object> := [announces, histories, peers, torrents, users, unregistered];
      forall i, j :: 0 <= i < j < |all| ==> all[i] != all[j]
    }

    ghost function Footprint(): set<object> {
      {announces, histories, peers, torrents, users, unregistered}
    }

    constructor (
        announces: AnnounceLog, histories: Queue<HistoryKey, HistoryUpdate>, peers: Queue<PeerKey, PeerUpdate>,
        torrents: Queue<TorrentId, TorrentUpdate>, users: Queue<UserId, UserUpdate>,
        unregistered: Queue<UnregisteredKey, UnregisteredUpdate>)
      ensures this.announces == announces && this.histories == histories && this.peers == peers
      ensures this.torrents == torrents && this.users == users && this.unregistered == unregistered
    {
      this.announces, this.histories, this.peers := announces, histories, peers;
      this.torrents, this.users, this.unregistered := torrents, users, unregistered;
    }

    function Sizes(): Lengths
      reads this, announces, histories, peers, torrents, users, unregistered
    {
      Lengths(|announces.records|, |histories.records|, |peers.records|, |torrents.records|, |users.records|,
              |unregistered.records|)
    }

    /** How much of each queue a flush can take */
    function Capacities(settings: FlushSettings): Lengths
      requires histories.config.Valid() && peers.config.Valid() && torrents.config.Valid()
      requires users.config.Valid() && unregistered.config.Valid()
    {
      var n := settings.maxBatchesPerFlush;
      Lengths(ANNOUNCE_LIMIT, n * histories.config.MaxBatchSize(settings), n * peers.config.MaxBatchSize(settings),
              n * torrents.config.MaxBatchSize(settings), n * users.config.MaxBatchSize(settings),
              n * unregistered.config.MaxBatchSize(settings))
    }

    predicate AreNotEmpty(): (r: bool)
      reads this, announces, histories, peers, torrents, users, unregistered
      ensures r <==> !Sizes().AllZero()
    {
      || announces.records != [] || histories.IsNotEmpty() || peers.IsNotEmpty() || torrents.IsNotEmpty()
      || users.IsNotEmpty() || unregistered.IsNotEmpty()
    }

    /** A flush of everything, with nothing queued meanwhile: in each queue the batches that failed, and they alone, are
        back; no queue grows, and if all batches succeed each shrinks by its capacity. */
    method Flush(settings: FlushSettings, o: Outcomes)
      requires Valid()
      modifies announces, histories, peers, torrents, users, unregistered
      ensures Valid()
      ensures IsFlushed(histories, settings, old(histories.records), histories.records, o.histories)
      ensures IsFlushed(peers, settings, old(peers.records), peers.records, o.peers)
      ensures IsFlushed(torrents, settings, old(torrents.records), torrents.records, o.torrents)
      ensures IsFlushed(users, settings, old(users.records), users.records, o.users)
      ensures IsFlushed(unregistered, settings, old(unregistered.records), unregistered.records, o.unregistered)
      ensures var n := Min(ANNOUNCE_LIMIT, |old(announces.records)|);
              announces.records == if o.announces then old(announces.records)[n..]
                                   else old(announces.records)[n..] + old(announces.records)[..n]
      ensures Sizes().AtMost(old(Sizes()))
      ensures AllSucceed(o) ==> Sizes() == old(Sizes()).Less(Capacities(settings))
    {
      ghost var h, p, t, u, r := histories.records, peers.records, torrents.records, users.records, unregistered.records;
      FlushRecords(settings, o);
      LengthAfter(histories, settings, h, histories.records, o.histories);
      LengthAfter(peers, settings, p, peers.records, o.peers);
      LengthAfter(torrents, settings, t, torrents.records, o.torrents);
      LengthAfter(users, settings, u, users.records, o.users);
      LengthAfter(unregistered, settings, r, unregistered.records, o.unregistered);
    }

    method FlushRecords(settings: FlushSettings, o: Outcomes)
      requires Valid()
      modifies announces, histories, peers, torrents, users, unregistered
      ensures Valid()
      ensures IsFlushed(histories, settings, old(histories.records), histories.records, o.histories)
      ensures IsFlushed(peers, settings, old(peers.records), peers.records, o.peers)
      ensures IsFlushed(torrents, settings, old(torrents.records), torrents.records, o.torrents)
      ensures IsFlushed(users, settings, old(users.records), users.records, o.users)
      ensures IsFlushed(unregistered, settings, old(unregistered.records), unregistered.records, o.unregistered)
      ensures var n := Min(ANNOUNCE_LIMIT, |old(announces.records)|);
              announces.records == if o.announces then old(announces.records)[n..]
                                   else old(announces.records)[n..] + old(announces.records)[..n]
    {
      announces.Flush(o.announces);
      FlushOne(histories, settings, o.histories);
      FlushOne(peers, settings, o.peers);
      FlushOne(torrents, settings, o.torrents);
      FlushOne(users, settings, o.users);
      FlushOne(unregistered, settings, o.unregistered);
    }
  }

  /** The queue after a flush with these outcomes: its first records, sorted and cut into batches, are gone, and those
      of the batches that failed are back behind the others. */
  ghost predicate IsFlushed<K(!new), V(!new)>(
      q: Queue<K, V>, settings: FlushSettings, before: Table<K, V>, after: Table<K, V>, outcomes: nat -> bool)
    requires q.config.Valid()
  {
    var size := q.config.MaxBatchSize(settings);
    exists batches, ok ::
      && IsFlush(q.leq, size, settings.maxBatchesPerFlush, before, batches, outcomes, ok)
      && after == Requeued(q.merge, before[Takes(|before|, settings.maxBatchesPerFlush, size)..], batches, ok)
  }

  /** No flush lengthens a queue, and one whose batches all succeed shortens it by what it may take */
  lemma LengthAfter<K(!new), V(!new)>(
      q: Queue<K, V>, settings: FlushSettings, before: Table<K, V>, after: Table<K, V>, outcomes: nat -> bool)
    requires q.config.Valid() && Distinct(before) && IsFlushed(q, settings, before, after, outcomes)
    ensures |after| <= |before|
    ensures (forall i: nat :: outcomes(i)) ==>
              |after| == Max(|before| - settings.maxBatchesPerFlush * q.config.MaxBatchSize(settings), 0)
  {
    var size := q.config.MaxBatchSize(settings);
    var batches, ok :|
      && IsFlush(q.leq, size, settings.maxBatchesPerFlush, before, batches, outcomes, ok)
      && after == Requeued(q.merge, before[Takes(|before|, settings.maxBatchesPerFlush, size)..], batches, ok);
    FlushedLength(q.merge, before, Takes(|before|, settings.maxBatchesPerFlush, size), batches, ok);
    assert (forall i: nat :: outcomes(i)) ==> forall i :: 0 <= i < |ok| ==> ok[i];
  }

  method FlushOne<K(==, !new), V(!new)>(q: Queue<K, V>, settings: FlushSettings, outcomes: nat -> bool)
    requires q.Valid()
    modifies q
    ensures q.Valid() && IsFlushed(q, settings, old(q.records), q.records, outcomes)
  {
    ghost var batches, ok := q.Flush(settings, outcomes);
  }

  // ---- The five queues of the tracker ----

  const HISTORY_QUEUE := QueueConfig(65535, 16, 1)
  const PEER_QUEUE := QueueConfig(65535, 15, 0)
  const TORRENT_QUEUE := QueueConfig(65535, 15, 0)
  const UNREGISTERED_QUEUE := QueueConfig(65535, 4, 0)
  const USER_QUEUE := QueueConfig(65535, 9, 0)

  predicate IsShipped(c: QueueConfig) {
    c in [HISTORY_QUEUE, PEER_QUEUE, TORRENT_QUEUE, UNREGISTERED_QUEUE, USER_QUEUE]
  }

  /** Every queue can be flushed: unless the settings forbid it, a batch holds thousands of records, no batch needs more
      bindings than a query may have, and one more record would not fit. */
  lemma ShippedQueuesFit(c: QueueConfig, settings: FlushSettings)
    requires IsShipped(c)
    ensures c.Valid()
    ensures c.MaxBatchSize(settings) * c.bindingsPerRecord + c.extraBindingsPerFlush <= 65535
    ensures settings.maxRecordsPerBatch.None? ==>
              && c.MaxBatchSize(settings) >= 4095
              && (c.MaxBatchSize(settings) + 1) * c.bindingsPerRecord + c.extraBindingsPerFlush > 65535
    ensures settings.maxRecordsPerBatch.Some? && settings.maxRecordsPerBatch.value > 0 ==> c.MaxBatchSize(settings) > 0
  {
    c.BindingsFit(settings, c.MaxBatchSize(settings));
    assert 65534 / 16 == 4095 && 65535 / 15 == 4369 && 65535 / 4 == 16383 && 65535 / 9 == 7281;
  }
}
