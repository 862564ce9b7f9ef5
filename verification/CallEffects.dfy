/** What a call that is carried out comes to for its user: whether its peer is shown, what is credited, and what is queued
    for the database under which key. */
module CallEffects {
  import opened MachineInts
  import opened Results
  import opened Tables
  import opened FlushProtocol
  import opened Updates
  import opened Warnings
  import opened Peers
  import opened Announces
  import opened AnnounceEffects
  import opened Credits
  import opened Admissions
  import opened Recording
  import opened Serving
  import opened Tracker

  // ---- The download slots ----

  /** Nobody is hidden who seeds, or whose group has no slot limit, or who leeches on fewer torrents than it allows */
  lemma NeverHidden(c: Config, ps: PeerStore, call: Call, a: Admission)
    requires PeerChange(c, ps, a.userId, call.request, HitOf(a, call)).Ok? && call.request.event != Stopped
    requires call.request.left == 0 || a.group.downloadSlots.None? || a.user.numLeeching < a.group.downloadSlots.value
    ensures var ch := PeerChange(c, ps, a.userId, call.request, HitOf(a, call)).value;
            ch.isVisible && HitDownloadSlotLimit !in ch.warnings
  {
    VisibleIff(c, ps, a.userId, call.request, HitOf(a, call));
    WarnedIff(c, ps, a.userId, call.request, HitOf(a, call));
  }

  /** A new peer is hidden, and its user warned, exactly if it leeches and the group's slots are taken */
  lemma NewPeerHiddenIff(c: Config, ps: PeerStore, call: Call, a: Admission)
    requires PeerChange(c, ps, a.userId, call.request, HitOf(a, call)).Ok? && call.request.event != Stopped
    requires Known(ps, a.userId, call.request).None?
    ensures var ch := PeerChange(c, ps, a.userId, call.request, HitOf(a, call)).value;
            && (ch.isVisible <==> HitDownloadSlotLimit !in ch.warnings)
            && (!ch.isVisible <==>
                  && call.request.left > 0
                  && a.group.downloadSlots.Some? && a.group.downloadSlots.value <= a.user.numLeeching)
  {
    VisibleIff(c, ps, a.userId, call.request, HitOf(a, call));
    WarnedIff(c, ps, a.userId, call.request, HitOf(a, call));
  }

  // ---- The credit ----

  /** The percentages that apply to a user on a torrent: favours are looked up for the user alone, for the user and the
      torrent, and for the torrent alone. */
  ghost predicate ArePercentages(c: Config, b: Benefits, a: Admission, t: Torrent, up: u8, down: u8) {
    && up == (if t.id in b.featuredTorrents then 200
              else Max(Max(c.uploadFactor, a.group.uploadFactor), Max(t.uploadFactor, UploadOverride(c, a.user))))
    && down == (if a.userId in b.personalFreeleeches || (a.userId, t.id) in b.freeleechTokens || t.id in b.featuredTorrents
                then 0
                else Min(Min(c.downloadFactor, a.group.downloadFactor), Min(t.downloadFactor, DownloadOverride(c, a.user))))
  }

  function UploadOverride(c: Config, user: User): u8 {
    if user.isLifetime then c.lifetimeDonorUploadFactorOverride.GetOr(0)
    else if user.isDonor then c.donorUploadFactorOverride.GetOr(0) else 0
  }

  function DownloadOverride(c: Config, user: User): u8 {
    if user.isLifetime then c.lifetimeDonorDownloadFactorOverride.GetOr(255)
    else if user.isDonor then c.donorDownloadFactorOverride.GetOr(255) else 255
  }

  /** What is credited for an announce are these percentages of the counted bytes, rounded down, while the products fit */
  lemma CreditIs(c: Config, b: Benefits, a: Admission, t: Torrent, ch: Change, credit: UserUpdate, up: u8, down: u8)
    requires IsCredit(c, b, a, t, ch, credit) && ArePercentages(c, b, a, t, up, down)
    ensures up * ch.uploadedDelta <= U64_MAX ==> credit.uploadedDelta == up * ch.uploadedDelta / 100
    ensures down * ch.downloadedDelta <= U64_MAX ==> credit.downloadedDelta == down * ch.downloadedDelta / 100
  {
    var u: u8, d: u8 :|
      && AreFactors(c, a.group, t.uploadFactor, t.downloadFactor, FavoursOf(b, a, t.id), u, d)
      && credit == UserUpdate(Credited(u, ch.uploadedDelta), Credited(d, ch.downloadedDelta));
    FactorsAre(c, a.group, t.uploadFactor, t.downloadFactor, FavoursOf(b, a, t.id), u, d);
    CreditIsExactIff(u, ch.uploadedDelta);
    CreditIsExactIff(d, ch.downloadedDelta);
  }

  /** Under each of the freeleeches no download is credited, whatever its size */
  lemma FreeleechIsFree(c: Config, b: Benefits, a: Admission, t: Torrent, ch: Change, credit: UserUpdate)
    requires IsCredit(c, b, a, t, ch, credit)
    requires a.userId in b.personalFreeleeches || (a.userId, t.id) in b.freeleechTokens || t.id in b.featuredTorrents
    ensures credit.downloadedDelta == 0
  {
    CreditIs(c, b, a, t, ch, credit,
             if t.id in b.featuredTorrents then 200
             else Max(Max(c.uploadFactor, a.group.uploadFactor), Max(t.uploadFactor, UploadOverride(c, a.user))), 0);
  }

  // ---- The queues ----

  /** What a call that is carried out queues, and under which keys: the peer by user, torrent and peer identifier, the
      history by user and torrent, the credit by user. Each is absorbed by what is queued there already. */
  lemma QueuedIs(x: Setup, st: State, call: Call, a: Admission, v: Served, credit: UserUpdate)
    requires a.place < |st.torrents| && Distinct(st.peers) && Distinct(st.histories) && Distinct(st.userUpdates)
    ensures var id, q := st.torrents[a.place].id, call.request;
            var st' := Accepted(x, st, call, a, v, credit);
            var peer := PeerKey(user := a.userId, torrent := id, peer := q.peerId);
            var history := HistoryKey(user := a.userId, torrent := id);
            && Lookup(st'.peers, peer) == Absorbed(PeerPolicy().merge, Lookup(st.peers, peer), PeerUpdateOf(q, v.change))
            && Lookup(st'.histories, history)
               == Absorbed(HistoryPolicy().merge, Lookup(st.histories, history),
                           HistoryUpdateOf(q, v.change, IsImmune(x.c, a.user, a.group), credit))
            && (credit != UserUpdate(0, 0) ==>
                  Lookup(st'.userUpdates, a.userId)
                  == Absorbed(UserPolicy().merge, Lookup(st.userUpdates, a.userId), credit))
            && (credit == UserUpdate(0, 0) ==> st'.userUpdates == st.userUpdates)
            && st'.announces == st.announces + (if x.isLogging then [RecordOf(call, a.userId, id)] else [])
  {
    var id, q := st.torrents[a.place].id, call.request;
    UpsertedSpec(PeerPolicy().merge, st.peers, PeerKeyOf(a.userId, id, q), PeerUpdateOf(q, v.change));
    UpsertedSpec(HistoryPolicy().merge, st.histories, HistoryKey(a.userId, id),
                 HistoryUpdateOf(q, v.change, IsImmune(x.c, a.user, a.group), credit));
    UpsertedSpec(UserPolicy().merge, st.userUpdates, a.userId, credit);
    assert st.announces + [] == st.announces;
  }
}
