/** The mergeable update records of the queues, and what their upserts do to the stored rows.

    Each record has a class whose `Merge` updates the fields in place, proved against a merge function on
    record values; the queues, which own their records outright, use the function. */
module Updates {
  import opened MachineInts
  import opened Results
  import opened FlushProtocol

  type UserId = u32
  type TorrentId = u32
  type PeerId = seq<u8>
  /** Nanoseconds since the epoch */
  type Time = int

  type Octets4 = s: seq<u8> | |s| == 4 witness [0, 0, 0, 0]

  type Octets16 = s: seq<u8> | |s| == 16 witness [0, 0, 0, 0, 0, 0, 0, 0, 0, 0, 0, 0, 0, 0, 0, 0]

  datatype IpAddress =
    | V4(octets4: Octets4)
    | V6(octets16: Octets16)

  // ---- Torrents ----

  datatype TorrentUpdate = TorrentUpdate(
    seederDelta: i32, leecherDelta: i32, timesCompletedDelta: u32, balanceDelta: i64)

  datatype TorrentRow = TorrentRow(seeders: int, leechers: int, timesCompleted: int, balance: int)

  function MergedTorrentUpdate(self: TorrentUpdate, new_: TorrentUpdate): TorrentUpdate {
    TorrentUpdate(
      SaturatingAddI32(self.seederDelta, new_.seederDelta),
      SaturatingAddI32(self.leecherDelta, new_.leecherDelta),
      SaturatingAddU32(self.timesCompletedDelta, new_.timesCompletedDelta),
      SaturatingAddI64(self.balanceDelta, new_.balanceDelta))
  }

  function AppliedTorrentUpdate(row: Option<TorrentRow>, v: TorrentUpdate): TorrentRow {
    var r := row.GetOr(TorrentRow(0, 0, 0, 0));
    TorrentRow(r.seeders + v.seederDelta, r.leechers + v.leecherDelta,
               r.timesCompleted + v.timesCompletedDelta, r.balance + v.balanceDelta)
  }

  function TorrentPolicy(): Policy<TorrentUpdate, TorrentRow> {
    Policy((u, v) => MergedTorrentUpdate(u, v), (row, v) => AppliedTorrentUpdate(row, v))
  }

  class TorrentRecord {
    var seederDelta: i32
    var leecherDelta: i32
    var timesCompletedDelta: u32
    var balanceDelta: i64

    function Value(): TorrentUpdate
      reads this
    {
      TorrentUpdate(seederDelta, leecherDelta, timesCompletedDelta, balanceDelta)
    }

    constructor (v: TorrentUpdate)
      ensures Value() == v
    {
      seederDelta := v.seederDelta;
      leecherDelta := v.leecherDelta;
      timesCompletedDelta := v.timesCompletedDelta;
      balanceDelta := v.balanceDelta;
    }

    method Merge(new_: TorrentUpdate)
      modifies this
      ensures Value() == MergedTorrentUpdate(old(Value()), new_)
    {
      seederDelta := SaturatingAddI32(seederDelta, new_.seederDelta);
      leecherDelta := SaturatingAddI32(leecherDelta, new_.leecherDelta);
      timesCompletedDelta := SaturatingAddU32(timesCompletedDelta, new_.timesCompletedDelta);
      balanceDelta := SaturatingAddI64(balanceDelta, new_.balanceDelta);
    }
  }

  // ---- Users ----

  datatype UserUpdate = UserUpdate(uploadedDelta: u64, downloadedDelta: u64)

  datatype UserRow = UserRow(uploaded: int, downloaded: int)

  function MergedUserUpdate(self: UserUpdate, new_: UserUpdate): UserUpdate {
    UserUpdate(
      SaturatingAddU64(self.uploadedDelta, new_.uploadedDelta),
      SaturatingAddU64(self.downloadedDelta, new_.downloadedDelta))
  }

  function AppliedUserUpdate(row: Option<UserRow>, v: UserUpdate): UserRow {
    var r := row.GetOr(UserRow(0, 0));
    UserRow(r.uploaded + v.uploadedDelta, r.downloaded + v.downloadedDelta)
  }

  function UserPolicy(): Policy<UserUpdate, UserRow> {
    Policy((u, v) => MergedUserUpdate(u, v), (row, v) => AppliedUserUpdate(row, v))
  }

  class UserRecord {
    var uploadedDelta: u64
    var downloadedDelta: u64

    function Value(): UserUpdate
      reads this
    {
      UserUpdate(uploadedDelta, downloadedDelta)
    }

    constructor (v: UserUpdate)
      ensures Value() == v
    {
      uploadedDelta := v.uploadedDelta;
      downloadedDelta := v.downloadedDelta;
    }

    method Merge(new_: UserUpdate)
      modifies this
      ensures Value() == MergedUserUpdate(old(Value()), new_)
    {
      uploadedDelta := SaturatingAddU64(uploadedDelta, new_.uploadedDelta);
      downloadedDelta := SaturatingAddU64(downloadedDelta, new_.downloadedDelta);
    }
  }

  // ---- Peers ----

  datatype PeerKey = PeerKey(user: UserId, torrent: TorrentId, peer: PeerId)

  /** Also the stored row: an upsert overwrites every column but `createdAt` */
  datatype PeerUpdate = PeerUpdate(
    ip: IpAddress, port: u16, agent: string, uploaded: u64, downloaded: u64, isActive: bool,
    isSeeder: bool, isVisible: bool, left: u64, createdAt: Time, updatedAt: Time, connectable: bool)

  function MergedPeerUpdate(self: PeerUpdate, new_: PeerUpdate): PeerUpdate {
    var newest := if new_.updatedAt > self.updatedAt then new_ else self;
    newest.(createdAt := Min(self.createdAt, new_.createdAt))
  }

  function AppliedPeerUpdate(row: Option<PeerUpdate>, v: PeerUpdate): PeerUpdate {
    match row
    case Some(r) => v.(createdAt := r.createdAt)
    case None => v
  }

  function PeerPolicy(): Policy<PeerUpdate, PeerUpdate> {
    Policy((u, v) => MergedPeerUpdate(u, v), (row, v) => AppliedPeerUpdate(row, v))
  }

  class PeerRecord {
    var ip: IpAddress
    var port: u16
    var agent: string
    var uploaded: u64
    var downloaded: u64
    var isActive: bool
    var isSeeder: bool
    var isVisible: bool
    var left: u64
    var createdAt: Time
    var updatedAt: Time
    var connectable: bool

    function Value(): PeerUpdate
      reads this
    {
      PeerUpdate(ip, port, agent, uploaded, downloaded, isActive, isSeeder, isVisible, left, createdAt,
                 updatedAt, connectable)
    }

    constructor (v: PeerUpdate)
      ensures Value() == v
    {
      ip, port, agent, uploaded, downloaded := v.ip, v.port, v.agent, v.uploaded, v.downloaded;
      isActive, isSeeder, isVisible, left := v.isActive, v.isSeeder, v.isVisible, v.left;
      createdAt, updatedAt, connectable := v.createdAt, v.updatedAt, v.connectable;
    }

    method Merge(new_: PeerUpdate)
      modifies this
      ensures Value() == MergedPeerUpdate(old(Value()), new_)
    {
      if new_.updatedAt > updatedAt {
        ip := new_.ip;
        port := new_.port;
        agent := new_.agent;
        uploaded := new_.uploaded;
        downloaded := new_.downloaded;
        isActive := new_.isActive;
        isSeeder := new_.isSeeder;
        isVisible := new_.isVisible;
        left := new_.left;
        updatedAt := new_.updatedAt;
        connectable := new_.connectable;
      }
      createdAt := Min(createdAt, new_.createdAt);
    }
  }

  // ---- Histories ----

  datatype HistoryKey = HistoryKey(user: UserId, torrent: TorrentId)

  datatype HistoryUpdate = HistoryUpdate(
    agent: string, isActive: bool, isSeeder: bool, isImmune: bool, uploaded: u64, downloaded: u64,
    uploadedDelta: u64, downloadedDelta: u64, creditedUploadedDelta: u64, creditedDownloadedDelta: u64,
    completedAt: Option<Time>, createdAt: Time, updatedAt: Time)

  datatype HistoryRow = HistoryRow(
    agent: string, uploaded: int, actualUploaded: int, clientUploaded: int,
    downloaded: int, actualDownloaded: int, clientDownloaded: int,
    seeder: bool, active: bool, immune: bool, createdAt: Time, updatedAt: Time, completedAt: Option<Time>)

  function MergedHistoryUpdate(self: HistoryUpdate, new_: HistoryUpdate): HistoryUpdate {
    HistoryUpdate(
      new_.agent, new_.isActive, new_.isSeeder, self.isImmune, new_.uploaded, new_.downloaded,
      WrappingAddU64(self.uploadedDelta, new_.uploadedDelta),
      WrappingAddU64(self.downloadedDelta, new_.downloadedDelta),
      WrappingAddU64(self.creditedUploadedDelta, new_.creditedUploadedDelta),
      WrappingAddU64(self.creditedDownloadedDelta, new_.creditedDownloadedDelta),
      new_.completedAt, Min(self.createdAt, new_.createdAt), Max(self.updatedAt, new_.updatedAt))
  }

  function AppliedHistoryUpdate(row: Option<HistoryRow>, v: HistoryUpdate): HistoryRow {
    match row
    case None =>
      HistoryRow(v.agent, v.creditedUploadedDelta, v.uploadedDelta, v.uploaded,
                 v.creditedDownloadedDelta, v.downloadedDelta, v.downloaded,
                 v.isSeeder, v.isActive, v.isImmune, v.createdAt, v.updatedAt, v.completedAt)
    case Some(r) =>
      HistoryRow(v.agent, r.uploaded + v.creditedUploadedDelta, r.actualUploaded + v.uploadedDelta, v.uploaded,
                 r.downloaded + v.creditedDownloadedDelta, r.actualDownloaded + v.downloadedDelta, v.downloaded,
                 v.isSeeder, v.isActive, r.immune && v.isImmune, r.createdAt, v.updatedAt,
                 if r.completedAt.Some? then r.completedAt else v.completedAt)
  }

  function HistoryPolicy(): Policy<HistoryUpdate, HistoryRow> {
    Policy((u, v) => MergedHistoryUpdate(u, v), (row, v) => AppliedHistoryUpdate(row, v))
  }

  class HistoryRecord {
    var agent: string
    var isActive: bool
    var isSeeder: bool
    var isImmune: bool
    var uploaded: u64
    var downloaded: u64
    var uploadedDelta: u64
    var downloadedDelta: u64
    var creditedUploadedDelta: u64
    var creditedDownloadedDelta: u64
    var completedAt: Option<Time>
    var createdAt: Time
    var updatedAt: Time

    function Value(): HistoryUpdate
      reads this
    {
      HistoryUpdate(agent, isActive, isSeeder, isImmune, uploaded, downloaded, uploadedDelta, downloadedDelta,
                    creditedUploadedDelta, creditedDownloadedDelta, completedAt, createdAt, updatedAt)
    }

    constructor (v: HistoryUpdate)
      ensures Value() == v
    {
      agent, isActive, isSeeder, isImmune := v.agent, v.isActive, v.isSeeder, v.isImmune;
      uploaded, downloaded := v.uploaded, v.downloaded;
      uploadedDelta, downloadedDelta := v.uploadedDelta, v.downloadedDelta;
      creditedUploadedDelta, creditedDownloadedDelta := v.creditedUploadedDelta, v.creditedDownloadedDelta;
      completedAt, createdAt, updatedAt := v.completedAt, v.createdAt, v.updatedAt;
    }

    /** The sums of a merge; in a release build they wrap around */
    method AddDeltas(new_: HistoryUpdate)
      modifies `uploadedDelta, `downloadedDelta, `creditedUploadedDelta, `creditedDownloadedDelta
      ensures uploadedDelta == WrappingAddU64(old(uploadedDelta), new_.uploadedDelta)
      ensures downloadedDelta == WrappingAddU64(old(downloadedDelta), new_.downloadedDelta)
      ensures creditedUploadedDelta == WrappingAddU64(old(creditedUploadedDelta), new_.creditedUploadedDelta)
      ensures creditedDownloadedDelta == WrappingAddU64(old(creditedDownloadedDelta), new_.creditedDownloadedDelta)
    {
      uploadedDelta := WrappingAddU64(uploadedDelta, new_.uploadedDelta);
      downloadedDelta := WrappingAddU64(downloadedDelta, new_.downloadedDelta);
      creditedUploadedDelta := WrappingAddU64(creditedUploadedDelta, new_.creditedUploadedDelta);
      creditedDownloadedDelta := WrappingAddU64(creditedDownloadedDelta, new_.creditedDownloadedDelta);
    }

    method Merge(new_: HistoryUpdate)
      modifies this
      ensures Value() == MergedHistoryUpdate(old(Value()), new_)
    {
      agent, isActive, isSeeder := new_.agent, new_.isActive, new_.isSeeder;
      uploaded, downloaded := new_.uploaded, new_.downloaded;
      AddDeltas(new_);
      completedAt := new_.completedAt;
      createdAt := Min(createdAt, new_.createdAt);
      updatedAt := Max(updatedAt, new_.updatedAt);
    }
  }

  // ---- Info hashes nobody registered ----

  datatype UnregisteredKey = UnregisteredKey(infoHash: seq<u8>, user: UserId)

  datatype UnregisteredUpdate = UnregisteredUpdate(createdAt: Time, updatedAt: Time)

  function MergedUnregisteredUpdate(self: UnregisteredUpdate, new_: UnregisteredUpdate): UnregisteredUpdate {
    UnregisteredUpdate(Min(self.createdAt, new_.createdAt), Max(self.updatedAt, new_.updatedAt))
  }

  function AppliedUnregisteredUpdate(row: Option<UnregisteredUpdate>, v: UnregisteredUpdate): UnregisteredUpdate {
    match row
    case Some(r) => UnregisteredUpdate(r.createdAt, v.updatedAt)
    case None => v
  }

  function UnregisteredPolicy(): Policy<UnregisteredUpdate, UnregisteredUpdate> {
    Policy((u, v) => MergedUnregisteredUpdate(u, v), (row, v) => AppliedUnregisteredUpdate(row, v))
  }

  function UnregisteredMerge(): (UnregisteredUpdate, UnregisteredUpdate) -> UnregisteredUpdate {
    (u, v) => MergedUnregisteredUpdate(u, v)
  }

  class UnregisteredRecord {
    var createdAt: Time
    var updatedAt: Time

    function Value(): UnregisteredUpdate
      reads this
    {
      UnregisteredUpdate(createdAt, updatedAt)
    }

    constructor (v: UnregisteredUpdate)
      ensures Value() == v
    {
      createdAt, updatedAt := v.createdAt, v.updatedAt;
    }

    method Merge(new_: UnregisteredUpdate)
      modifies this
      ensures Value() == MergedUnregisteredUpdate(old(Value()), new_)
    {
      if new_.updatedAt > updatedAt {
        updatedAt := new_.updatedAt;
      }
      createdAt := Min(createdAt, new_.createdAt);
    }
  }
}
