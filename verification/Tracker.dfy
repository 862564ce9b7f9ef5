/** The tracker: an announce from its admission to the queues, and the reaper's pass over all torrents. */
module Tracker {
  import opened MachineInts
  import opened Results
  import opened Tables
  import opened FlushProtocol
  import opened Updates
  import opened Errors
  import opened Peers
  import opened Announces
  import opened Credits
  import opened AllQueues
  import opened TorrentStore
  import opened Admissions
  import opened Serving
  import opened Recording
  import opened PeerLists
  import opened Rates
  import Reaper
  import Swarms
  import Passes

  /** Users who leech for free, everywhere or on one torrent, and torrents that are free for everyone */
  datatype Benefits = Benefits(
    personalFreeleeches: set<UserId>, freeleechTokens: set<(UserId, TorrentId)>, featuredTorrents: set<TorrentId>)

  function FavoursOf(b: Benefits, a: Admission, torrent: TorrentId): Favours {
    Favours(a.user.isDonor, a.user.isLifetime, a.userId in b.personalFreeleeches,
            (a.userId, torrent) in b.freeleechTokens, torrent in b.featuredTorrents)
  }

  /** What stays the same while the tracker runs */
  datatype Setup = Setup(c: Config, reg: Registry, b: Benefits, isLogging: bool, decay: real -> real)

  /** How often a user has asked for seeds and for leeches, over several windows */
  datatype UserRates = UserRates(seed: seq<RateState>, leech: seq<RateState>)

  /** All that announces and the reaper change */
  datatype State = State(
    torrents: seq<Torrent>, users: map<UserId, User>, rates: map<UserId, UserRates>, announces: seq<AnnounceRecord>,
    histories: Table<HistoryKey, HistoryUpdate>, peers: Table<PeerKey, PeerUpdate>,
    torrentUpdates: Table<TorrentId, TorrentUpdate>, userUpdates: Table<UserId, UserUpdate>,
    unregistered: UnregisteredTable)

  function RatesOf(rates: map<UserId, UserRates>, u: UserId): UserRates {
    if u in rates then rates[u] else UserRates([], [])
  }

  function LimitsOf(rates: map<UserId, UserRates>, u: UserId): RateLimits {
    RateLimits(AllUnderLimit(RatesOf(rates, u).seed), AllUnderLimit(RatesOf(rates, u).leech))
  }

  /** Each kind of list that was asked for ticks its rates */
  function TickedRates(decay: real -> real, clock: nat -> real, r: UserRates, s: Selection): UserRates {
    UserRates(if s.hasRequestedSeeds then TickedAll(decay, clock, 0, r.seed) else r.seed,
              if s.hasRequestedLeeches then TickedAll(decay, clock, |r.seed|, r.leech) else r.leech)
  }

  /** The rates of a user that the tracker still knows */
  function RatesAfter(decay: real -> real, clock: nat -> real, rates: map<UserId, UserRates>, users: map<UserId, User>,
                      u: UserId, s: Selection): map<UserId, UserRates> {
    if u in users && u in rates then rates[u := TickedRates(decay, clock, rates[u], s)] else rates
  }

  /** What an accepted announce leaves outside its torrent */
  function Recorded(x: Setup, st: State, call: Call, a: Admission, id: TorrentId, v: Served, credit: UserUpdate): State {
    var q, ch := call.request, v.change;
    State(
      st.torrents,
      Swarms.AdjustedUsers(st.users, Swarms.UserOp(a.userId, ch.seederDelta, ch.leecherDelta)),
      RatesAfter(x.decay, call.clock, st.rates, st.users, a.userId, v.selection),
      if x.isLogging then st.announces + [RecordOf(call, a.userId, id)] else st.announces,
      Upserted(HistoryPolicy().merge, st.histories, HistoryKey(a.userId, id),
               HistoryUpdateOf(q, ch, IsImmune(x.c, a.user, a.group), credit)),
      Upserted(PeerPolicy().merge, st.peers, PeerKeyOf(a.userId, id, q), PeerUpdateOf(q, ch)),
      UpsertedAll(TorrentPolicy().merge, st.torrentUpdates, Swarms.TorrentOpsOf(id, ch)),
      if credit.uploadedDelta != 0 || credit.downloadedDelta != 0
      then Upserted(UserPolicy().merge, st.userUpdates, a.userId, credit) else st.userUpdates,
      st.unregistered)
  }

  /** The state when the torrent is back in the store */
  function PutBack(st: State, place: nat, t: Torrent): State
    requires place < |st.torrents|
  {
    st.(torrents := st.torrents[place := t])
  }

  /** The state after an accepted announce */
  function Accepted(x: Setup, st: State, call: Call, a: Admission, v: Served, credit: UserUpdate): State
    requires a.place < |st.torrents|
  {
    var t := st.torrents[a.place];
    Recorded(x, PutBack(st, a.place, Swarms.AnnouncedTorrent(t, v.change)), call, a, t.id, v, credit)
  }

  /** The state after a pass of the reaper */
  function Reaped(c: Config, activeCutoff: Time, inactiveCutoff: Time, st: State): State
  {
    st.(torrents := Passes.ReapedAll(c, activeCutoff, inactiveCutoff, st.torrents),
        users := Passes.ApplyOps(st.users, Passes.AllUserOps(c, activeCutoff, inactiveCutoff, st.torrents)),
        torrentUpdates := UpsertedAll(TorrentPolicy().merge, st.torrentUpdates,
                                      Passes.AllTorrentOps(c, activeCutoff, inactiveCutoff, st.torrents)))
  }

  /** The state after the pass went over one torrent */
  function ReapedAt(c: Config, ac: Time, ic: Time, st: State, i: nat): State
    requires i < |st.torrents|
  {
    var t := st.torrents[i];
    st.(torrents := st.torrents[i := Swarms.ReapedTorrent(c, ac, ic, t)],
        users := Passes.ApplyOps(st.users, Passes.UserOpsOf(c, ac, ic, t)),
        torrentUpdates := UpsertedAll(TorrentPolicy().merge, st.torrentUpdates, Swarms.ReapOps(c, ac, ic, t)))
  }

  /** Part of a pass has been carried out, and the rest of it leads to the end of the whole */
  ghost predicate PassSoFar(c: Config, ac: Time, ic: Time, start: State, st: State, i: nat) {
    && i <= |start.torrents|
    && st == start.(torrents := st.torrents, users := st.users, torrentUpdates := st.torrentUpdates)
    && st.torrents == Passes.PartlyReaped(c, ac, ic, start.torrents, i)
    && Passes.ApplyOps(st.users, Passes.AllUserOps(c, ac, ic, start.torrents[i..]))
       == Reaped(c, ac, ic, start).users
    && UpsertedAll(TorrentPolicy().merge, st.torrentUpdates, Passes.AllTorrentOps(c, ac, ic, start.torrents[i..]))
       == Reaped(c, ac, ic, start).torrentUpdates
  }

  lemma PassStarts(c: Config, ac: Time, ic: Time, start: State)
    ensures PassSoFar(c, ac, ic, start, start, 0)
  {
    Passes.PartlyReapedEnds(c, ac, ic, start.torrents);
    assert start.torrents[0..] == start.torrents;
  }

  lemma PassAtTorrent(c: Config, ac: Time, ic: Time, start: State, st: State, i: nat)
    requires PassSoFar(c, ac, ic, start, st, i) && i < |start.torrents|
    ensures |st.torrents| == |start.torrents| && st.torrents[i] == start.torrents[i]
  {
    Passes.PartlyReapedStep(c, ac, ic, start.torrents, i);
  }

  lemma PassGoesOn(c: Config, ac: Time, ic: Time, start: State, st: State, i: nat)
    requires PassSoFar(c, ac, ic, start, st, i) && i < |start.torrents|
    requires |st.torrents| == |start.torrents| && st.torrents[i] == start.torrents[i]
    ensures PassSoFar(c, ac, ic, start, ReapedAt(c, ac, ic, st, i), i + 1)
  {
    Passes.PartlyReapedStep(c, ac, ic, start.torrents, i);
    Passes.PassOpsStep(c, ac, ic, start.torrents, i, st.users, st.torrentUpdates);
  }

  lemma PassEnds(c: Config, ac: Time, ic: Time, start: State, st: State)
    requires PassSoFar(c, ac, ic, start, st, |start.torrents|)
    ensures st == Reaped(c, ac, ic, start)
  {
    Passes.PartlyReapedEnds(c, ac, ic, start.torrents);
    assert start.torrents[|start.torrents|..] == [];
  }

  /** What is credited: the percentages that apply to this user on this torrent */
  ghost predicate IsCredit(c: Config, b: Benefits, a: Admission, t: Torrent, ch: Change, credit: UserUpdate) {
    exists up: u8, down: u8 ::
      && AreFactors(c, a.group, t.uploadFactor, t.downloadFactor, FavoursOf(b, a, t.id), up, down)
      && credit == UserUpdate(Credited(up, ch.uploadedDelta), Credited(down, ch.downloadedDelta))
  }

  function HitOf(a: Admission, call: Call): bool {
    HitsSlotLimit(a.user, a.group, call.request.left)
  }

  /** How an announce on the torrent was carried out */
  ghost predicate IsTrace(x: Setup, t: Torrent, limits: RateLimits, call: Call, a: Admission, v: Served,
                          credit: UserUpdate) {
    && PeerChange(x.c, t.peers, a.userId, call.request, HitOf(a, call)) == Ok(v.change)
    && IsServed(x.c, Swarms.AnnouncedTorrent(t, v.change), call, a.userId, limits, v)
    && IsCredit(x.c, x.b, a, t, v.change, credit)
  }

  /** What became of a call: it had a problem, the torrent turned it away, or it was carried out */
  datatype How = Refused | TurnedAway(a: Admission) | Carried(a: Admission, v: Served, credit: UserUpdate)

  /** The answer to a call and the state it leaves behind */
  ghost predicate IsOutcome(
      x: Setup, st: State, call: Call, r: Result<string, AnnounceError>, how: How, st': State) {
    var problems := Problems(x.reg, st.torrents, st.users, call);
    match how
    case Refused =>
      && problems != [] && r == Err(problems[0])
      && st' == st.(unregistered := NotedIf(problems[0], UnregisteredMerge(), x.reg, st.users, call, st.unregistered))
    case TurnedAway(a) =>
      && problems == [] && IsAdmission(x.reg, st.torrents, st.users, call, a)
      && r.Err? && PeerChange(x.c, st.torrents[a.place].peers, a.userId, call.request, HitOf(a, call)) == Err(r.error)
      && st' == st
    case Carried(a, v, credit) =>
      && problems == [] && IsAdmission(x.reg, st.torrents, st.users, call, a)
      && r == Ok(v.body) && IsTrace(x, st.torrents[a.place], LimitsOf(st.rates, a.userId), call, a, v, credit)
      && st' == Accepted(x, st, call, a, v, credit)
  }

  /** What a call does to the queues: nothing, unless it is carried out */
  lemma OutcomeInQueues(x: Setup, st: State, call: Call, r: Result<string, AnnounceError>, how: How, st': State)
    requires IsOutcome(x, st, call, r, how, st')
    ensures how.Carried? ==>
              how.a.place < |st.torrents| && st' == Accepted(x, st, call, how.a, how.v, how.credit)
    ensures !how.Carried? ==> st' == st.(unregistered := st'.unregistered)
  {
  }

  /** What is carried out is what the torrent's peers and the request call for */
  lemma OutcomeInPeers(x: Setup, st: State, call: Call, r: Result<string, AnnounceError>, how: How, st': State)
    requires IsOutcome(x, st, call, r, how, st') && how.Carried?
    ensures how.a.place < |st.torrents|
    ensures PeerChange(x.c, st.torrents[how.a.place].peers, how.a.userId, call.request, HitOf(how.a, call))
            == Ok(how.v.change)
  {
  }

  lemma OutcomeInTorrents(x: Setup, st: State, call: Call, r: Result<string, AnnounceError>, how: How, st': State)
    requires IsOutcome(x, st, call, r, how, st')
    ensures how.Carried? ==>
              && how.a.place < |st.torrents|
              && st'.torrents
                 == st.torrents[how.a.place := Swarms.AnnouncedTorrent(st.torrents[how.a.place], how.v.change)]
    ensures !how.Carried? ==> st'.torrents == st.torrents
  {
  }

  /** A list is withheld from a user who asked for it when one of the user's rates for it is over its limit */
  lemma OutcomeInLists(x: Setup, st: State, call: Call, r: Result<string, AnnounceError>, how: How, st': State)
    requires IsOutcome(x, st, call, r, how, st') && how.Carried?
    ensures var s, rates := how.v.selection, RatesOf(st.rates, how.a.userId);
            && s.isOverSeedLimit == (s.hasRequestedSeeds && !AllUnderLimit(rates.seed))
            && s.isOverLeechLimit == (s.hasRequestedLeeches && !AllUnderLimit(rates.leech))
  {
  }

  lemma OutcomeInRates(x: Setup, st: State, call: Call, r: Result<string, AnnounceError>, how: How, st': State)
    requires IsOutcome(x, st, call, r, how, st')
    ensures st'.rates
            == if how.Carried?
               then RatesAfter(x.decay, call.clock, st.rates, st.users, how.a.userId, how.v.selection)
               else st.rates
  {
  }

  /** What the locked section makes of the torrent of an admitted announce */
  ghost predicate IsServing(x: Setup, st: State, call: Call, a: Admission, r: Result<Served, AnnounceError>, t: Torrent)
    requires a.place < |st.torrents|
  {
    match PeerChange(x.c, st.torrents[a.place].peers, a.userId, call.request, HitOf(a, call))
    case Err(e) => r == Err(e) && t == st.torrents[a.place]
    case Ok(ch) =>
      && r.Ok? && r.value.change == ch && t == Swarms.AnnouncedTorrent(st.torrents[a.place], ch)
      && IsServed(x.c, t, call, a.userId, LimitsOf(st.rates, a.userId), r.value)
  }

  /** What an admitted announce comes to: a refusal by the torrent changes nothing */
  ghost predicate IsCarrying(x: Setup, st: State, call: Call, a: Admission, r: Result<Served, AnnounceError>,
                             credit: UserUpdate, st': State)
    requires a.place < |st.torrents|
  {
    match r
    case Err(e) =>
      PeerChange(x.c, st.torrents[a.place].peers, a.userId, call.request, HitOf(a, call)) == Err(e) && st' == st
    case Ok(v) =>
      && IsTrace(x, st.torrents[a.place], LimitsOf(st.rates, a.userId), call, a, v, credit)
      && st' == Accepted(x, st, call, a, v, credit)
  }

  lemma RefusalIsCarrying(x: Setup, st: State, call: Call, a: Admission, r: Result<Served, AnnounceError>, t: Torrent,
                          credit: UserUpdate)
    requires a.place < |st.torrents| && IsServing(x, st, call, a, r, t) && r.Err?
    ensures IsCarrying(x, st, call, a, r, credit, PutBack(st, a.place, t))
  {
  }

  /** The factors are read after the announce has changed the torrent, which does not change them */
  lemma RecordingIsCarrying(x: Setup, st: State, call: Call, a: Admission, r: Result<Served, AnnounceError>, t: Torrent,
                            credit: UserUpdate)
    requires a.place < |st.torrents| && IsServing(x, st, call, a, r, t) && r.Ok?
    requires IsCredit(x.c, x.b, a, t, r.value.change, credit)
    ensures IsCarrying(x, st, call, a, r, credit,
                       Recorded(x, PutBack(st, a.place, t), call, a, t.id, r.value, credit))
  {
  }

  class Server {
    const config: Config
    const registry: Registry
    const queues: QueueSet
    const benefits: Benefits
    const isAnnounceLoggingEnabled: bool
    const decay: real -> real
    var torrents: seq<Torrent>
    var users: map<UserId, User>
    var rates: map<UserId, UserRates>

    constructor (
        config: Config, registry: Registry, queues: QueueSet, benefits: Benefits, isAnnounceLoggingEnabled: bool,
        decay: real -> real, torrents: seq<Torrent>, users: map<UserId, User>, rates: map<UserId, UserRates>)
      requires ValidConfig(config) && queues.Valid() && HasPolicies(queues)
      ensures Valid() && this.queues == queues
      ensures Settings() == Setup(config, registry, benefits, isAnnounceLoggingEnabled, decay)
      ensures this.torrents == torrents && this.users == users && this.rates == rates
    {
      this.config, this.registry, this.queues, this.benefits := config, registry, queues, benefits;
      this.isAnnounceLoggingEnabled, this.decay := isAnnounceLoggingEnabled, decay;
      this.torrents, this.users, this.rates := torrents, users, rates;
    }

    function Settings(): Setup {
      Setup(config, registry, benefits, isAnnounceLoggingEnabled, decay)
    }

    ghost predicate Valid()
      reads this, queues, queues.Footprint()
    {
      ValidConfig(config) && queues.Valid() && HasPolicies(queues)
    }

    function Snapshot(): State
      reads this, queues, queues.announces, queues.histories, queues.peers, queues.torrents, queues.users,
            queues.unregistered
    {
      State(torrents, users, rates, queues.announces.records, queues.histories.records, queues.peers.records,
            queues.torrents.records, queues.users.records, queues.unregistered.records)
    }

    /** The user's counters follow the torrent's, and the rates of the lists that were asked for are ticked */
    method CountUser(user: UserId, clock: nat -> real, v: Served)
      modifies `users, `rates
      ensures users == Swarms.AdjustedUsers(old(users), Swarms.UserOp(user, v.change.seederDelta, v.change.leecherDelta))
      ensures rates == RatesAfter(decay, clock, old(rates), old(users), user, v.selection)
    {
      var ch, s := v.change, v.selection;
      if ch.seederDelta != 0 || ch.leecherDelta != 0 || s.hasRequestedSeeds || s.hasRequestedLeeches {
        if user in users {
          users := users[user := users[user].(
            numSeeding := SaturatingAddSigned(users[user].numSeeding, ch.seederDelta),
            numLeeching := SaturatingAddSigned(users[user].numLeeching, ch.leecherDelta))];
          if user in rates {
            TickRates(user, clock, s);
          }
        }
      }
    }

    method TickRates(user: UserId, clock: nat -> real, s: Selection)
      requires user in rates
      modifies `rates
      ensures rates == old(rates)[user := TickedRates(decay, clock, old(rates)[user], s)]
    {
      var seed, leech := rates[user].seed, rates[user].leech;
      var taken := |seed|;
      if s.hasRequestedSeeds {
        seed := TickAll(decay, clock, 0, seed);
      }
      if s.hasRequestedLeeches {
        leech := TickAll(decay, clock, taken, leech);
      }
      rates := rates[user := UserRates(seed, leech)];
    }

    /** What is credited for an announce */
    method Credit(a: Admission, torrent: Torrent, ch: Change) returns (credit: UserUpdate)
      ensures IsCredit(config, benefits, a, torrent, ch, credit)
    {
      var up, down := Factors(config, a.group, torrent.uploadFactor, torrent.downloadFactor,
                              FavoursOf(benefits, a, torrent.id));
      credit := UserUpdate(Credited(up, ch.uploadedDelta), Credited(down, ch.downloadedDelta));
    }

    /** The queues get what the announce has to say */
    method Enqueue(call: Call, a: Admission, torrent: TorrentId, ch: Change, credit: UserUpdate)
      requires queues.Valid() && HasPolicies(queues)
      modifies queues.announces, queues.histories, queues.peers, queues.torrents, queues.users
      ensures queues.Valid()
      ensures queues.peers.records
              == Upserted(PeerPolicy().merge, old(queues.peers.records), PeerKeyOf(a.userId, torrent, call.request),
                          PeerUpdateOf(call.request, ch))
      ensures queues.histories.records
              == Upserted(HistoryPolicy().merge, old(queues.histories.records), HistoryKey(a.userId, torrent),
                          HistoryUpdateOf(call.request, ch, IsImmune(config, a.user, a.group), credit))
      ensures queues.users.records
              == if credit.uploadedDelta != 0 || credit.downloadedDelta != 0
                 then Upserted(UserPolicy().merge, old(queues.users.records), a.userId, credit)
                 else old(queues.users.records)
      ensures queues.torrents.records
              == UpsertedAll(TorrentPolicy().merge, old(queues.torrents.records), Swarms.TorrentOpsOf(torrent, ch))
      ensures queues.announces.records
              == if isAnnounceLoggingEnabled then old(queues.announces.records) + [RecordOf(call, a.userId, torrent)]
                 else old(queues.announces.records)
    {
      RecordPeer(queues, a.userId, torrent, call.request, ch);
      RecordHistory(queues, a.userId, torrent,
                    HistoryUpdateOf(call.request, ch, IsImmune(config, a.user, a.group), credit));
      RecordCredit(queues, a.userId, credit);
      RecordTorrent(queues, torrent, ch);
      RecordAnnounce(queues, isAnnounceLoggingEnabled, RecordOf(call, a.userId, torrent));
    }

    /** The locked section: the torrent is taken out of the store, served and put back */
    method ServeOne(call: Call, a: Admission) returns (r: Result<Served, AnnounceError>)
      requires ValidConfig(config) && a.place < |torrents|
      modifies `torrents
      ensures |torrents| == |old(torrents)| && Snapshot() == PutBack(old(Snapshot()), a.place, torrents[a.place])
      ensures IsServing(Settings(), old(Snapshot()), call, a, r, torrents[a.place])
    {
      var swarm := new Swarm(torrents[a.place]);
      r := Serve(config, swarm, call, a.userId, LimitsOf(rates, a.userId), HitOf(a, call));
      torrents := torrents[a.place := swarm.Value()];
    }

    /** What follows once the torrent is unlocked */
    method Finish(call: Call, a: Admission, torrent: Torrent, v: Served) returns (credit: UserUpdate)
      requires Valid()
      modifies `users, `rates, queues.announces, queues.histories, queues.peers, queues.torrents, queues.users
      ensures Valid() && IsCredit(config, benefits, a, torrent, v.change, credit)
      ensures Snapshot() == Recorded(Settings(), old(Snapshot()), call, a, torrent.id, v, credit)
    {
      credit := Credit(a, torrent, v.change);
      CountUser(a.userId, call.clock, v);
      Enqueue(call, a, torrent.id, v.change, credit);
    }

    /** An admitted announce */
    method Carry(call: Call, a: Admission)
        returns (r: Result<Served, AnnounceError>, ghost credit: UserUpdate)
      requires Valid() && a.place < |torrents|
      modifies `torrents, `users, `rates, queues.announces, queues.histories, queues.peers, queues.torrents, queues.users
      ensures Valid() && IsCarrying(Settings(), old(Snapshot()), call, a, r, credit, Snapshot())
    {
      ghost var st := Snapshot();
      r := ServeOne(call, a);
      credit := UserUpdate(0, 0);
      var torrent := torrents[a.place];
      if r.Ok? {
        var earned := Finish(call, a, torrent, r.value);
        credit := earned;
        RecordingIsCarrying(Settings(), st, call, a, r, torrent, credit);
      } else {
        RefusalIsCarrying(Settings(), st, call, a, r, torrent, credit);
      }
    }

    /** The answer to an announce */
    method Announce(call: Call) returns (r: Result<string, AnnounceError>, ghost how: How)
      requires Valid()
      modifies `torrents, `users, `rates, queues.Footprint()
      ensures Valid()
      ensures IsOutcome(Settings(), old(Snapshot()), call, r, how, Snapshot())
    {
      var admitted := Admit(registry, torrents, users, call, queues.unregistered);
      match admitted {
        case Err(e) =>
          return Err(e), Refused;
        case Ok(a) =>
          var served, credit := Carry(call, a);
          match served {
            case Err(e) =>
              return Err(e), TurnedAway(a);
            case Ok(v) =>
              r, how := Ok(v.body), Carried(a, v, credit);
          }
      }
    }

    /** A pass of the reaper, one torrent after the other; `later` is the second reading of the clock */
    method Reap(now: Time, later: Time)
      requires Valid()
      modifies `torrents, `users, queues.torrents
      ensures Valid()
      ensures Snapshot()
              == Reaped(config, Reaper.ActiveCutoff(config, now), Reaper.InactiveCutoff(config, later), old(Snapshot()))
    {
      var activeCutoff := Reaper.ActiveCutoff(config, now);
      var inactiveCutoff := Reaper.InactiveCutoff(config, later);
      ghost var start := Snapshot();
      PassStarts(config, activeCutoff, inactiveCutoff, start);
      for i := 0 to |torrents|
        invariant Valid() && |torrents| == |start.torrents|
        invariant PassSoFar(config, activeCutoff, inactiveCutoff, start, Snapshot(), i)
      {
        PassAtTorrent(config, activeCutoff, inactiveCutoff, start, Snapshot(), i);
        ghost var st := Snapshot();
        ReapOne(activeCutoff, inactiveCutoff, i);
        PassGoesOn(config, activeCutoff, inactiveCutoff, start, st, i);
      }
      PassEnds(config, activeCutoff, inactiveCutoff, start, Snapshot());
    }

    /** One torrent of a pass */
    method ReapOne(activeCutoff: Time, inactiveCutoff: Time, i: nat)
      requires Valid() && i < |torrents|
      modifies `torrents, `users, queues.torrents
      ensures Valid()
      ensures Snapshot() == ReapedAt(config, activeCutoff, inactiveCutoff, old(Snapshot()), i)
    {
      var swarm := new Swarm(torrents[i]);
      var update;
      users, update := swarm.Reap(config, activeCutoff, inactiveCutoff, users);
      torrents := torrents[i := swarm.Value()];
      RecordReaped(queues, swarm.id, update);
    }
  }

  /** Each queue merges its own kind of update */
  ghost predicate HasPolicies(queues: QueueSet)
    reads queues
  {
    && queues.histories.merge == HistoryPolicy().merge && queues.peers.merge == PeerPolicy().merge
    && queues.torrents.merge == TorrentPolicy().merge && queues.users.merge == UserPolicy().merge
    && queues.unregistered.merge == UnregisteredMerge()
  }
}
