/** The admission of an announce: which torrent and which user it is about, or the first reason to refuse it. */
module Admissions {
  import opened MachineInts
  import opened Results
  import opened Tables
  import opened FlushProtocol
  import opened Updates
  import opened Errors
  import opened Announces
  import opened Credits
  import opened Queues
  import Swarms

  type Torrent = Swarms.Torrent
  type User = Swarms.User

  /** An announce as it arrives, with the readings of the clock that the ticks of the user's rates take */
  datatype Call = Call(
    passkey: string, infoHash: seq<u8>, corrupt: Option<u64>, key: Option<string>, request: Request,
    clock: nat -> real)

  datatype Admission = Admission(place: nat, userId: UserId, user: User, group: Group)

  /** What an announce is checked against, apart from the torrents and users themselves */
  datatype Registry = Registry(
    portBlacklist: set<u16>, passkeys: map<string, UserId>, infoHashes: map<seq<u8>, TorrentId>,
    groups: map<int, Group>)

  function FindTorrent(ts: seq<Torrent>, id: TorrentId): (i: nat)
    ensures i <= |ts|
    ensures i < |ts| ==> ts[i].id == id
    ensures forall j :: 0 <= j < i ==> ts[j].id != id
  {
    if ts == [] || ts[0].id == id then 0 else 1 + FindTorrent(ts[1..], id)
  }

  function If(condition: bool, e: AnnounceError): seq<AnnounceError> {
    if condition then [e] else []
  }

  function StatusProblems(status: Swarms.TorrentStatus): seq<AnnounceError> {
    match status
    case Approved => []
    case Pending => [TorrentIsPendingModeration]
    case Rejected => [TorrentIsRejected]
    case Postponed => [TorrentIsPostponed]
    case Unknown => [TorrentUnknownModerationStatus]
  }

  function TorrentProblems(reg: Registry, ts: seq<Torrent>, infoHash: seq<u8>): seq<AnnounceError> {
    if infoHash !in reg.infoHashes then [InfoHashNotFound]
    else
      var i := FindTorrent(ts, reg.infoHashes[infoHash]);
      if i == |ts| then [TorrentNotFound]
      else If(ts[i].isDeleted, TorrentIsDeleted) + StatusProblems(ts[i].status)
  }

  function GroupProblems(reg: Registry, user: User): seq<AnnounceError> {
    if user.groupId !in reg.groups then [GroupNotFound]
    else
      var slug := reg.groups[user.groupId].slug;
      If(slug == "banned" || slug == "validating" || slug == "disabled", GroupNotEnabled(slug))
  }

  function UserProblems(reg: Registry, users: map<UserId, User>, passkey: string, left: u64): seq<AnnounceError> {
    if passkey !in reg.passkeys then [PasskeyNotFound]
    else if reg.passkeys[passkey] !in users then [UserNotFound]
    else
      var user := users[reg.passkeys[passkey]];
      If(!user.canDownload && left != 0, DownloadPrivilegesRevoked) + GroupProblems(reg, user)
  }

  function FormProblems(reg: Registry, call: Call): seq<AnnounceError> {
    var q := call.request;
    If(q.port in reg.portBlacklist && q.event != Stopped, BlacklistedPort(q.port))
    + If(|call.passkey| != 32, InvalidPasskey)
  }

  /** Everything that is wrong with a call, most important first: the torrent is looked into before the user,
      even if the passkey leads to nobody. */
  function Problems(reg: Registry, ts: seq<Torrent>, users: map<UserId, User>, call: Call): seq<AnnounceError> {
    FormProblems(reg, call)
    + TorrentProblems(reg, ts, call.infoHash)
    + UserProblems(reg, users, call.passkey, call.request.left)
  }

  predicate IsFirst(e: AnnounceError, problems: seq<AnnounceError>) {
    problems != [] && e == problems[0]
  }

  /** Errors after which the info hash is noted as unregistered */
  predicate IsNoted(e: AnnounceError) {
    e.InfoHashNotFound? || e.TorrentIsDeleted?
  }

  lemma FirstProblem(form: seq<AnnounceError>, torrent: seq<AnnounceError>, user: seq<AnnounceError>)
    ensures form != [] ==> (form + torrent + user)[0] == form[0]
    ensures form == [] && torrent != [] ==> (form + torrent + user)[0] == torrent[0]
    ensures form == [] && torrent == [] ==> form + torrent + user == user
  {
  }

  /** The user behind the call, if known */
  function CallerOf(reg: Registry, users: map<UserId, User>, call: Call): Option<UserId> {
    if call.passkey in reg.passkeys && reg.passkeys[call.passkey] in users then Some(reg.passkeys[call.passkey]) else None
  }

  /** What an admission says about a call */
  predicate IsAdmission(reg: Registry, ts: seq<Torrent>, users: map<UserId, User>, call: Call, a: Admission) {
    && call.infoHash in reg.infoHashes
    && a.place == FindTorrent(ts, reg.infoHashes[call.infoHash]) < |ts|
    && call.passkey in reg.passkeys && a.userId == reg.passkeys[call.passkey]
    && a.userId in users && a.user == users[a.userId]
    && a.user.groupId in reg.groups && a.group == reg.groups[a.user.groupId]
  }

  type UnregisteredQueue = Queue<UnregisteredKey, UnregisteredUpdate>

  type UnregisteredTable = Table<UnregisteredKey, UnregisteredUpdate>

  /** The queue of unregistered info hashes after a call: it is noted if the user is known */
  function Noted(merge: (UnregisteredUpdate, UnregisteredUpdate) -> UnregisteredUpdate, reg: Registry,
                 users: map<UserId, User>, call: Call, records: UnregisteredTable): UnregisteredTable {
    match CallerOf(reg, users, call)
    case Some(user) =>
      Upserted(merge, records, UnregisteredKey(call.infoHash, user),
               UnregisteredUpdate(call.request.now, call.request.now))
    case None => records
  }

  function NotedIf(e: AnnounceError, merge: (UnregisteredUpdate, UnregisteredUpdate) -> UnregisteredUpdate,
                   reg: Registry, users: map<UserId, User>, call: Call, records: UnregisteredTable)
      : UnregisteredTable {
    if IsNoted(e) then Noted(merge, reg, users, call, records) else records
  }

  /** The user leeches on as many torrents as the group allows */
  function HitsSlotLimit(user: User, group: Group, left: u64): bool {
    left > 0 && group.downloadSlots.Some? && user.numLeeching >= group.downloadSlots.value
  }

  /** Finds the torrent and the user of a call, or the first thing that is wrong with it. Info hashes that
      nobody registered, or whose torrent was deleted, are noted if the user is known. */
  method Admit(reg: Registry, ts: seq<Torrent>, users: map<UserId, User>, call: Call, unregistered: UnregisteredQueue)
      returns (r: Result<Admission, AnnounceError>)
    requires unregistered.Valid()
    modifies unregistered
    ensures unregistered.Valid()
    ensures r.Err? ==> IsFirst(r.error, Problems(reg, ts, users, call))
    ensures r.Ok? ==> Problems(reg, ts, users, call) == [] && IsAdmission(reg, ts, users, call, r.value)
    ensures unregistered.records ==
            if r.Err? then NotedIf(r.error, unregistered.merge, reg, users, call,
                                   old(unregistered.records))
            else old(unregistered.records)
  {
    FirstProblem(FormProblems(reg, call), TorrentProblems(reg, ts, call.infoHash),
                 UserProblems(reg, users, call.passkey, call.request.left));
    var formProblem := CheckForm(reg, call);
    if formProblem.Some? {
      return Err(formProblem.value);
    }
    var place := Locate(reg, ts, users, call, unregistered);
    match place {
      case Err(e) =>
        return Err(e);
      case Ok(i) =>
        r := AdmitUser(reg, ts, users, call, i);
    }
  }

  method CheckForm(reg: Registry, call: Call) returns (r: Option<AnnounceError>)
    ensures r.Some? ==> IsFirst(r.value, FormProblems(reg, call)) && !IsNoted(r.value)
    ensures r.None? ==> FormProblems(reg, call) == []
  {
    if call.request.port in reg.portBlacklist && call.request.event != Stopped {
      return Some(BlacklistedPort(call.request.port));
    }
    if |call.passkey| != 32 {
      return Some(InvalidPasskey);
    }
    r := None;
  }

  method Locate(reg: Registry, ts: seq<Torrent>, users: map<UserId, User>, call: Call, unregistered: UnregisteredQueue)
      returns (r: Result<nat, AnnounceError>)
    requires unregistered.Valid()
    modifies unregistered
    ensures unregistered.Valid() && IsPlaceOf(reg, ts, call.infoHash, r)
    ensures unregistered.records ==
            if r.Err? then NotedIf(r.error, unregistered.merge, reg, users, call, old(unregistered.records))
            else old(unregistered.records)
  {
    r := FindApproved(reg, ts, call.infoHash);
    if r.Err? && IsNoted(r.error) {
      NoteUnregistered(reg, users, call, unregistered);
    }
  }

  /** The place of the torrent if there is no problem with it, and otherwise the first problem */
  ghost predicate IsPlaceOf(reg: Registry, ts: seq<Torrent>, infoHash: seq<u8>, r: Result<nat, AnnounceError>) {
    var problems := TorrentProblems(reg, ts, infoHash);
    match r
    case Err(e) => IsFirst(e, problems)
    case Ok(i) => problems == [] && infoHash in reg.infoHashes && i == FindTorrent(ts, reg.infoHashes[infoHash]) < |ts|
  }

  method FindApproved(reg: Registry, ts: seq<Torrent>, infoHash: seq<u8>) returns (r: Result<nat, AnnounceError>)
    ensures IsPlaceOf(reg, ts, infoHash, r)
  {
    if infoHash !in reg.infoHashes {
      return Err(InfoHashNotFound);
    }
    var i := FindTorrent(ts, reg.infoHashes[infoHash]);
    if i == |ts| {
      return Err(TorrentNotFound);
    }
    if ts[i].isDeleted {
      return Err(TorrentIsDeleted);
    }
    match ts[i].status {
      case Approved => r := Ok(i);
      case Pending => r := Err(TorrentIsPendingModeration);
      case Rejected => r := Err(TorrentIsRejected);
      case Postponed => r := Err(TorrentIsPostponed);
      case Unknown => r := Err(TorrentUnknownModerationStatus);
    }
  }

  method AdmitUser(reg: Registry, ts: seq<Torrent>, users: map<UserId, User>, call: Call, place: nat)
      returns (r: Result<Admission, AnnounceError>)
    requires call.infoHash in reg.infoHashes
    requires place == FindTorrent(ts, reg.infoHashes[call.infoHash]) < |ts|
    ensures r.Err? ==> IsFirst(r.error, UserProblems(reg, users, call.passkey, call.request.left)) && !IsNoted(r.error)
    ensures r.Ok? ==> UserProblems(reg, users, call.passkey, call.request.left) == []
    ensures r.Ok? ==> IsAdmission(reg, ts, users, call, r.value)
  {
    if call.passkey !in reg.passkeys {
      return Err(PasskeyNotFound);
    }
    var userId := reg.passkeys[call.passkey];
    if userId !in users {
      return Err(UserNotFound);
    }
    var user := users[userId];
    if !user.canDownload && call.request.left != 0 {
      return Err(DownloadPrivilegesRevoked);
    }
    if user.groupId !in reg.groups {
      return Err(GroupNotFound);
    }
    var group := reg.groups[user.groupId];
    if group.slug == "banned" || group.slug == "validating" || group.slug == "disabled" {
      return Err(GroupNotEnabled(group.slug));
    }
    r := Ok(Admission(place, userId, user, group));
  }

  method NoteUnregistered(reg: Registry, users: map<UserId, User>, call: Call, unregistered: UnregisteredQueue)
    requires unregistered.Valid()
    modifies unregistered
    ensures unregistered.Valid()
    ensures unregistered.records
            == Noted(unregistered.merge, reg, users, call, old(unregistered.records))
  {
    var caller := CallerOf(reg, users, call);
    if caller.Some? {
      unregistered.Upsert(UnregisteredKey(call.infoHash, caller.value),
                                 UnregisteredUpdate(call.request.now, call.request.now));
    }
  }

  // ---- What is wrong with a call ----

  lemma TorrentIsFineIff(reg: Registry, ts: seq<Torrent>, infoHash: seq<u8>)
    ensures TorrentProblems(reg, ts, infoHash) == [] <==>
            && infoHash in reg.infoHashes
            && (var i := FindTorrent(ts, reg.infoHashes[infoHash]);
                i < |ts| && !ts[i].isDeleted && ts[i].status == Swarms.Approved)
  {
  }

  lemma UserIsFineIff(reg: Registry, users: map<UserId, User>, passkey: string, left: u64)
    ensures UserProblems(reg, users, passkey, left) == [] <==>
            && passkey in reg.passkeys && reg.passkeys[passkey] in users
            && (var user := users[reg.passkeys[passkey]];
                && (user.canDownload || left == 0)
                && user.groupId in reg.groups
                && reg.groups[user.groupId].slug !in ["banned", "validating", "disabled"])
  {
  }

  /** Nothing is wrong with a call exactly if all of this holds of it */
  lemma AdmittedIff(reg: Registry, ts: seq<Torrent>, users: map<UserId, User>, call: Call)
    ensures Problems(reg, ts, users, call) == [] <==>
            && (call.request.port !in reg.portBlacklist || call.request.event == Stopped)
            && |call.passkey| == 32
            && call.infoHash in reg.infoHashes
            && (var i := FindTorrent(ts, reg.infoHashes[call.infoHash]);
                i < |ts| && !ts[i].isDeleted && ts[i].status == Swarms.Approved)
            && call.passkey in reg.passkeys && reg.passkeys[call.passkey] in users
            && (var user := users[reg.passkeys[call.passkey]];
                && (user.canDownload || call.request.left == 0)
                && user.groupId in reg.groups
                && reg.groups[user.groupId].slug !in ["banned", "validating", "disabled"])
  {
    TorrentIsFineIff(reg, ts, call.infoHash);
    UserIsFineIff(reg, users, call.passkey, call.request.left);
    NoneInThree(FormProblems(reg, call), TorrentProblems(reg, ts, call.infoHash),
                UserProblems(reg, users, call.passkey, call.request.left));
    NoneInThree(If(call.request.port in reg.portBlacklist && call.request.event != Stopped,
                   BlacklistedPort(call.request.port)),
                If(|call.passkey| != 32, InvalidPasskey), []);
  }

  lemma NoneInThree(a: seq<AnnounceError>, b: seq<AnnounceError>, c: seq<AnnounceError>)
    ensures a + b + c == [] <==> a == [] && b == [] && c == []
  {
    assert |a + b + c| == |a| + |b| + |c|;
  }

  /** The first problem with the form of a call, or with its torrent */
  lemma TorrentProblemIs(reg: Registry, ts: seq<Torrent>, users: map<UserId, User>, call: Call)
    ensures call.request.port in reg.portBlacklist && call.request.event != Stopped ==>
              IsFirst(BlacklistedPort(call.request.port), Problems(reg, ts, users, call))
    ensures FormProblems(reg, call) == [] <==>
            (call.request.port !in reg.portBlacklist || call.request.event == Stopped) && |call.passkey| == 32
    ensures (call.request.port !in reg.portBlacklist || call.request.event == Stopped) && |call.passkey| != 32 ==>
              IsFirst(InvalidPasskey, Problems(reg, ts, users, call))
    ensures FormProblems(reg, call) == [] && call.infoHash !in reg.infoHashes ==>
              IsFirst(InfoHashNotFound, Problems(reg, ts, users, call))
    ensures FormProblems(reg, call) == [] && call.infoHash in reg.infoHashes ==>
              var i := FindTorrent(ts, reg.infoHashes[call.infoHash]);
              && (i == |ts| ==> IsFirst(TorrentNotFound, Problems(reg, ts, users, call)))
              && (i < |ts| && ts[i].isDeleted ==> IsFirst(TorrentIsDeleted, Problems(reg, ts, users, call)))
              && (i < |ts| && !ts[i].isDeleted ==>
                    && (ts[i].status == Swarms.Pending ==>
                          IsFirst(TorrentIsPendingModeration, Problems(reg, ts, users, call)))
                    && (ts[i].status == Swarms.Rejected ==> IsFirst(TorrentIsRejected, Problems(reg, ts, users, call)))
                    && (ts[i].status == Swarms.Postponed ==> IsFirst(TorrentIsPostponed, Problems(reg, ts, users, call)))
                    && (ts[i].status == Swarms.Unknown ==>
                          IsFirst(TorrentUnknownModerationStatus, Problems(reg, ts, users, call))))
  {
    FirstProblem(FormProblems(reg, call), TorrentProblems(reg, ts, call.infoHash),
                 UserProblems(reg, users, call.passkey, call.request.left));
  }

  /** The first problem with the user of a call, if there is none with the call's form and torrent */
  lemma UserProblemIs(reg: Registry, ts: seq<Torrent>, users: map<UserId, User>, call: Call)
    requires FormProblems(reg, call) == [] && TorrentProblems(reg, ts, call.infoHash) == []
    ensures call.passkey !in reg.passkeys ==> IsFirst(PasskeyNotFound, Problems(reg, ts, users, call))
    ensures call.passkey in reg.passkeys && reg.passkeys[call.passkey] !in users ==>
              IsFirst(UserNotFound, Problems(reg, ts, users, call))
    ensures call.passkey in reg.passkeys && reg.passkeys[call.passkey] in users ==>
              var user := users[reg.passkeys[call.passkey]];
              && (!user.canDownload && call.request.left > 0 ==>
                    IsFirst(DownloadPrivilegesRevoked, Problems(reg, ts, users, call)))
              && (user.canDownload || call.request.left == 0 ==>
                    && (user.groupId !in reg.groups ==> IsFirst(GroupNotFound, Problems(reg, ts, users, call)))
                    && (user.groupId in reg.groups && reg.groups[user.groupId].slug in ["banned", "validating", "disabled"] ==>
                          IsFirst(GroupNotEnabled(reg.groups[user.groupId].slug), Problems(reg, ts, users, call))))
  {
    FirstProblem(FormProblems(reg, call), TorrentProblems(reg, ts, call.infoHash),
                 UserProblems(reg, users, call.passkey, call.request.left));
  }

  /** An info hash is noted exactly if it is unknown or its torrent deleted, for a user that is known, at this time */
  lemma NotedIs(e: AnnounceError, merge: (UnregisteredUpdate, UnregisteredUpdate) -> UnregisteredUpdate, reg: Registry,
                users: map<UserId, User>, call: Call, records: UnregisteredTable)
    ensures NotedIf(e, merge, reg, users, call, records) ==
            if (e == InfoHashNotFound || e == TorrentIsDeleted)
               && call.passkey in reg.passkeys && reg.passkeys[call.passkey] in users
            then Upserted(merge, records,
                          UnregisteredKey(infoHash := call.infoHash, user := reg.passkeys[call.passkey]),
                          UnregisteredUpdate(createdAt := call.request.now, updatedAt := call.request.now))
            else records
  {
  }
}
