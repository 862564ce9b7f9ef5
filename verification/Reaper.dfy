/** The periodic pass over a torrent's peers: long-gone inactive peers are erased, and peers that stopped
    announcing become inactive. */
module Reaper {
  import opened Results
  import opened Tables
  import opened Updates
  import opened Peers
  import opened Announces

  predicate IsKept(inactiveCutoff: Time, p: Peer) {
    inactiveCutoff <= p.updatedAt || p.isActive
  }

  predicate IsExpired(activeCutoff: Time, p: Peer) {
    p.updatedAt < activeCutoff && p.isActive
  }

  /** `IndexMap::retain`, which keeps the order */
  function Retained(inactiveCutoff: Time, ps: PeerStore): PeerStore {
    if ps == [] then []
    else (if IsKept(inactiveCutoff, ps[0].1) then [ps[0]] else []) + Retained(inactiveCutoff, ps[1..])
  }

  function Aged(activeCutoff: Time, e: Entry): Entry {
    if IsExpired(activeCutoff, e.1) then (e.0, e.1.(isActive := false)) else e
  }

  function AgedAll(activeCutoff: Time, ps: PeerStore): (r: PeerStore)
    ensures |r| == |ps|
  {
    if ps == [] then [] else [Aged(activeCutoff, ps[0])] + AgedAll(activeCutoff, ps[1..])
  }

  function ReapedPeers(activeCutoff: Time, inactiveCutoff: Time, ps: PeerStore): PeerStore {
    AgedAll(activeCutoff, Retained(inactiveCutoff, ps))
  }

  lemma {:induction false} AgedAllAt(activeCutoff: Time, ps: PeerStore, i: nat)
    requires i < |ps|
    ensures AgedAll(activeCutoff, ps)[i] == Aged(activeCutoff, ps[i])
  {
    if i > 0 {
      AgedAllAt(activeCutoff, ps[1..], i - 1);
    }
  }

  lemma {:induction false} RetainedMembers(inactiveCutoff: Time, ps: PeerStore, e: Entry)
    ensures e in Retained(inactiveCutoff, ps) <==> e in ps && IsKept(inactiveCutoff, e.1)
  {
    if ps != [] {
      RetainedMembers(inactiveCutoff, ps[1..], e);
      assert ps == [ps[0]] + ps[1..];
    }
  }

  lemma {:induction false} RetainedDistinct(inactiveCutoff: Time, ps: PeerStore)
    requires Distinct(ps)
    ensures Distinct(Retained(inactiveCutoff, ps))
    ensures |Retained(inactiveCutoff, ps)| <= |ps|
  {
    if ps != [] {
      var rest := Retained(inactiveCutoff, ps[1..]);
      RetainedDistinct(inactiveCutoff, ps[1..]);
      forall e | e in rest ensures e.0 != ps[0].0 {
        RetainedMembers(inactiveCutoff, ps[1..], e);
        var j :| 0 <= j < |ps[1..]| && ps[1..][j] == e;
        assert ps[j + 1] == e;
      }
      assert forall j :: 0 <= j < |rest| ==> rest[j] in rest;
    }
  }

  lemma ReapedDistinct(activeCutoff: Time, inactiveCutoff: Time, ps: PeerStore)
    requires Distinct(ps)
    ensures Distinct(ReapedPeers(activeCutoff, inactiveCutoff, ps))
    ensures |ReapedPeers(activeCutoff, inactiveCutoff, ps)| <= |ps|
  {
    var kept := Retained(inactiveCutoff, ps);
    RetainedDistinct(inactiveCutoff, ps);
    forall i | 0 <= i < |kept| ensures AgedAll(activeCutoff, kept)[i].0 == kept[i].0 {
      AgedAllAt(activeCutoff, kept, i);
    }
  }

  /** An entry survives a pass exactly if it was kept, aged */
  lemma ReapedMembers(activeCutoff: Time, inactiveCutoff: Time, ps: PeerStore, e: Entry)
    ensures e in ReapedPeers(activeCutoff, inactiveCutoff, ps) <==>
            exists o :: o in ps && IsKept(inactiveCutoff, o.1) && e == Aged(activeCutoff, o)
  {
    var kept := Retained(inactiveCutoff, ps);
    var aged := AgedAll(activeCutoff, kept);
    if e in aged {
      var i :| 0 <= i < |aged| && aged[i] == e;
      AgedAllAt(activeCutoff, kept, i);
      RetainedMembers(inactiveCutoff, ps, kept[i]);
    }
    if o :| o in ps && IsKept(inactiveCutoff, o.1) && e == Aged(activeCutoff, o) {
      RetainedMembers(inactiveCutoff, ps, o);
      var i :| 0 <= i < |kept| && kept[i] == o;
      AgedAllAt(activeCutoff, kept, i);
    }
  }

  // ---- Effects of a pass outside the torrent ----

  /** One listed peer of a user went inactive */
  datatype Effect = SeedGone(user: UserId) | LeechGone(user: UserId)

  function EffectsOfPeer(c: Config, activeCutoff: Time, e: Entry): seq<Effect> {
    if IsExpired(activeCutoff, e.1) && IsIncludedInPeerList(c, e.1)
    then [if e.1.isSeeder then SeedGone(e.0.user) else LeechGone(e.0.user)]
    else []
  }

  function EffectsOfPeers(c: Config, activeCutoff: Time, ps: PeerStore): seq<Effect> {
    if ps == [] then [] else EffectsOfPeer(c, activeCutoff, ps[0]) + EffectsOfPeers(c, activeCutoff, ps[1..])
  }

  /** The decrements of user counters that a pass over the torrent makes */
  function EffectsOf(c: Config, activeCutoff: Time, inactiveCutoff: Time, ps: PeerStore): seq<Effect> {
    EffectsOfPeers(c, activeCutoff, Retained(inactiveCutoff, ps))
  }

  /** How much a group's count falls in a pass */
  function Drop(c: Config, kind: Kind, activeCutoff: Time, inactiveCutoff: Time, ps: PeerStore): int {
    Tally(c, kind, ps) - Tally(c, kind, ReapedPeers(activeCutoff, inactiveCutoff, ps))
  }

  lemma {:induction false} RetainedTally(c: Config, kind: Kind, inactiveCutoff: Time, ps: PeerStore)
    ensures Tally(c, kind, Retained(inactiveCutoff, ps)) == Tally(c, kind, ps)
  {
    if ps != [] {
      RetainedTally(c, kind, inactiveCutoff, ps[1..]);
      if IsKept(inactiveCutoff, ps[0].1) {
        TallyConcat(c, kind, [ps[0]], Retained(inactiveCutoff, ps[1..]));
        TallyOne(c, kind, ps[0]);
      } else {
        assert Retained(inactiveCutoff, ps) == Retained(inactiveCutoff, ps[1..]);
      }
    }
  }

  lemma AgedTally(c: Config, kind: Kind, activeCutoff: Time, e: Entry)
    ensures Bit(Belongs(c, kind, e)) - Bit(Belongs(c, kind, Aged(activeCutoff, e))) ==
            var effects := multiset(EffectsOfPeer(c, activeCutoff, e));
            match kind
            case Seeds => Bit(EffectsOfPeer(c, activeCutoff, e) != [] && e.1.isSeeder)
            case Leeches => Bit(EffectsOfPeer(c, activeCutoff, e) != [] && !e.1.isSeeder)
            case SeedsOf(u) => effects[SeedGone(u)]
            case LeechesOf(u) => effects[LeechGone(u)]
            case ActiveOf(u) => Bit(IsExpired(activeCutoff, e.1) && e.0.user == u)
  {
  }

  lemma {:induction false} EffectsAreDrops(c: Config, activeCutoff: Time, ps: PeerStore, u: UserId)
    ensures multiset(EffectsOfPeers(c, activeCutoff, ps))[SeedGone(u)]
            == Tally(c, SeedsOf(u), ps) - Tally(c, SeedsOf(u), AgedAll(activeCutoff, ps))
    ensures multiset(EffectsOfPeers(c, activeCutoff, ps))[LeechGone(u)]
            == Tally(c, LeechesOf(u), ps) - Tally(c, LeechesOf(u), AgedAll(activeCutoff, ps))
  {
    if ps != [] {
      EffectsAreDrops(c, activeCutoff, ps[1..], u);
      AgedTally(c, SeedsOf(u), activeCutoff, ps[0]);
      AgedTally(c, LeechesOf(u), activeCutoff, ps[0]);
      assert AgedAll(activeCutoff, ps)[1..] == AgedAll(activeCutoff, ps[1..]);
    }
  }

  /** The decrements a pass makes for a user are exactly the fall of that user's counts */
  lemma EffectsCountDrops(c: Config, activeCutoff: Time, inactiveCutoff: Time, ps: PeerStore, u: UserId)
    ensures multiset(EffectsOf(c, activeCutoff, inactiveCutoff, ps))[SeedGone(u)]
            == Drop(c, SeedsOf(u), activeCutoff, inactiveCutoff, ps)
    ensures multiset(EffectsOf(c, activeCutoff, inactiveCutoff, ps))[LeechGone(u)]
            == Drop(c, LeechesOf(u), activeCutoff, inactiveCutoff, ps)
  {
    EffectsAreDrops(c, activeCutoff, Retained(inactiveCutoff, ps), u);
    RetainedTally(c, SeedsOf(u), inactiveCutoff, ps);
    RetainedTally(c, LeechesOf(u), inactiveCutoff, ps);
  }

  lemma {:induction false} AgedAllTally(c: Config, kind: Kind, activeCutoff: Time, ps: PeerStore)
    ensures Tally(c, kind, AgedAll(activeCutoff, ps)) <= Tally(c, kind, ps)
  {
    if ps != [] {
      AgedAllTally(c, kind, activeCutoff, ps[1..]);
      AgedTally(c, kind, activeCutoff, ps[0]);
      assert AgedAll(activeCutoff, ps)[1..] == AgedAll(activeCutoff, ps[1..]);
    }
  }

  lemma DropIsNonNegative(c: Config, kind: Kind, activeCutoff: Time, inactiveCutoff: Time, ps: PeerStore)
    ensures 0 <= Drop(c, kind, activeCutoff, inactiveCutoff, ps) <= |ps|
  {
    RetainedTally(c, kind, inactiveCutoff, ps);
    AgedAllTally(c, kind, activeCutoff, Retained(inactiveCutoff, ps));
  }

  // ---- What a pass promises ----

  /** After a pass every active peer is at or past the active cutoff; active peers are aged, never erased;
      and an inactive peer is still there only if it was inactive at or past the inactive cutoff, or has
      just been aged. */
  lemma PassPromises(activeCutoff: Time, inactiveCutoff: Time, ps: PeerStore, e: Entry)
    ensures e in ReapedPeers(activeCutoff, inactiveCutoff, ps) && e.1.isActive ==>
              activeCutoff <= e.1.updatedAt && e in ps
    ensures e in ps && e.1.isActive ==> Aged(activeCutoff, e) in ReapedPeers(activeCutoff, inactiveCutoff, ps)
    ensures e in ReapedPeers(activeCutoff, inactiveCutoff, ps) && !e.1.isActive ==>
              inactiveCutoff <= e.1.updatedAt || (e.0, e.1.(isActive := true)) in ps
  {
    ReapedMembers(activeCutoff, inactiveCutoff, ps, e);
    ReapedMembers(activeCutoff, inactiveCutoff, ps, Aged(activeCutoff, e));
    if e in ReapedPeers(activeCutoff, inactiveCutoff, ps) {
      var o :| o in ps && IsKept(inactiveCutoff, o.1) && e == Aged(activeCutoff, o);
      assert o == (o.0, o.1);
    }
  }

  lemma {:induction false} RetainedAll(inactiveCutoff: Time, ps: PeerStore)
    requires forall e :: e in ps ==> IsKept(inactiveCutoff, e.1)
    ensures Retained(inactiveCutoff, ps) == ps
  {
    if ps != [] {
      RetainedAll(inactiveCutoff, ps[1..]);
      assert ps == [ps[0]] + ps[1..];
    }
  }

  lemma {:induction false} AgedNone(activeCutoff: Time, ps: PeerStore)
    requires forall e :: e in ps ==> !IsExpired(activeCutoff, e.1)
    ensures AgedAll(activeCutoff, ps) == ps
  {
    if ps != [] {
      AgedNone(activeCutoff, ps[1..]);
      assert ps == [ps[0]] + ps[1..];
    }
  }

  /** Two passes with the same cutoffs reach a fixed point, where no peer is older than both cutoffs and no
      peer is due to be aged. */
  lemma TwoPassesSettle(activeCutoff: Time, inactiveCutoff: Time, ps: PeerStore)
    ensures var once := ReapedPeers(activeCutoff, inactiveCutoff, ps);
            var twice := ReapedPeers(activeCutoff, inactiveCutoff, once);
            && ReapedPeers(activeCutoff, inactiveCutoff, twice) == twice
            && (forall e :: e in twice ==> activeCutoff <= e.1.updatedAt || inactiveCutoff <= e.1.updatedAt)
            && twice == Retained(inactiveCutoff, once)
  {
    var once := ReapedPeers(activeCutoff, inactiveCutoff, ps);
    var kept := Retained(inactiveCutoff, once);
    forall e | e in kept
      ensures IsKept(inactiveCutoff, e.1) && !IsExpired(activeCutoff, e.1)
    {
      RetainedMembers(inactiveCutoff, once, e);
      PassPromises(activeCutoff, inactiveCutoff, ps, e);
    }
    AgedNone(activeCutoff, kept);
    RetainedAll(inactiveCutoff, kept);
  }

  // ---- Punctual peers over runs ----

  datatype TorrentEvent = Announced(user: UserId, q: Request, hit: bool) | Reaped(now: Time, later: Time)

  function ActiveCutoff(c: Config, now: Time): Time {
    now - c.activePeerTtl * SECOND
  }

  function InactiveCutoff(c: Config, now: Time): Time {
    now - c.inactivePeerTtl * SECOND
  }

  function After(c: Config, ps: PeerStore, ev: TorrentEvent): PeerStore {
    match ev
    case Announced(user, q, hit) =>
      (match PeerChange(c, ps, user, q, hit) case Ok(ch) => ch.peers case Err(_) => ps)
    case Reaped(now, later) => ReapedPeers(ActiveCutoff(c, now), InactiveCutoff(c, later), ps)
  }

  function AfterAll(c: Config, ps: PeerStore, evs: seq<TorrentEvent>): PeerStore
    decreases |evs|
  {
    if evs == [] then ps else AfterAll(c, After(c, ps, evs[0]), evs[1..])
  }

  /** The peer's last announce, given the one before these events */
  function LastAnnounce(k: PeerIndex, last: Time, evs: seq<TorrentEvent>): Time
    decreases |evs|
  {
    if evs == [] then last
    else
      var ev := evs[0];
      LastAnnounce(k, if ev.Announced? && IndexOf(ev.user, ev.q) == k then ev.q.now else last, evs[1..])
  }

  /** The peer does not stop, and no pass comes later than `announceMax` seconds after its last announce */
  predicate Punctual(c: Config, k: PeerIndex, last: Time, evs: seq<TorrentEvent>)
    decreases |evs|
  {
    evs == [] ||
    match evs[0]
    case Reaped(now, _) => now <= last + c.announceMax * SECOND && Punctual(c, k, last, evs[1..])
    case Announced(user, q, _) =>
      if IndexOf(user, q) == k then q.event != Stopped && Punctual(c, k, q.now, evs[1..])
      else Punctual(c, k, last, evs[1..])
  }

  ghost predicate Alive(ps: PeerStore, k: PeerIndex, last: Time) {
    && Distinct(ps)
    && Lookup(ps, k).Some? && Lookup(ps, k).value.isActive && Lookup(ps, k).value.updatedAt == last
  }

  lemma AliveAfterAnnounce(c: Config, ps: PeerStore, k: PeerIndex, last: Time, user: UserId, q: Request, hit: bool)
    requires Alive(ps, k, last)
    requires IndexOf(user, q) == k ==> q.event != Stopped
    ensures Alive(After(c, ps, Announced(user, q, hit)), k, if IndexOf(user, q) == k then q.now else last)
  {
    var key := IndexOf(user, q);
    var i := Find(ps, key);
    LookupIsMembership(ps, k);
    if PeerChange(c, ps, user, q, hit).Ok? {
      var ps' := PeerChange(c, ps, user, q, hit).value.peers;
      if q.event == Stopped {
        SwapRemoveDistinct(ps, i);
        assert (k, Lookup(ps, k).value) in ps';
        LookupIsMembership(ps', k);
      } else if i < |ps| {
        PutSpec(ps, key, UpdatedPeer(c, ps[i].1, q, hit));
      } else {
        PutSpec(ps, key, NewPeer(q, hit));
      }
    }
  }

  lemma AliveAfterReap(c: Config, ps: PeerStore, k: PeerIndex, last: Time, now: Time, later: Time)
    requires ValidConfig(c) && Alive(ps, k, last) && now <= last + c.announceMax * SECOND
    ensures Alive(After(c, ps, Reaped(now, later)), k, last)
  {
    var p := Lookup(ps, k).value;
    LookupIsMembership(ps, k);
    assert c.announceMax * SECOND < c.activePeerTtl * SECOND;
    ReapedDistinct(ActiveCutoff(c, now), InactiveCutoff(c, later), ps);
    PassPromises(ActiveCutoff(c, now), InactiveCutoff(c, later), ps, (k, p));
    LookupIsMembership(After(c, ps, Reaped(now, later)), k);
  }

  /** A peer that announces at least every `announceMax` seconds stays active through every run of announces
      of anyone and passes at any time. */
  lemma {:induction false} PunctualPeersStayActive(c: Config, ps: PeerStore, k: PeerIndex, last: Time, evs: seq<TorrentEvent>)
    requires ValidConfig(c) && Alive(ps, k, last) && Punctual(c, k, last, evs)
    ensures Alive(AfterAll(c, ps, evs), k, LastAnnounce(k, last, evs))
    decreases |evs|
  {
    if evs != [] {
      match evs[0]
      case Reaped(now, later) =>
        AliveAfterReap(c, ps, k, last, now, later);
        PunctualPeersStayActive(c, After(c, ps, evs[0]), k, last, evs[1..]);
      case Announced(user, q, hit) =>
        AliveAfterAnnounce(c, ps, k, last, user, q, hit);
        PunctualPeersStayActive(c, After(c, ps, evs[0]), k,
                                if IndexOf(user, q) == k then q.now else last, evs[1..]);
    }
  }

  // ---- What becomes of each peer ----

  /** What a pass makes of each peer, by the settings: an active one that has not announced for longer than the time to
      live of active peers goes inactive, an inactive one that has not for longer than that of inactive peers is
      forgotten, and all others stay as they are. */
  lemma PassIff(c: Config, now: Time, later: Time, ps: PeerStore, k: PeerIndex)
    requires Distinct(ps)
    ensures var ps' := After(c, ps, Reaped(now, later));
            && Distinct(ps')
            && Lookup(ps', k) ==
               match Lookup(ps, k)
               case None => None
               case Some(p) =>
                 if p.isActive then
                   if p.updatedAt + c.activePeerTtl * 1_000_000_000 < now then Some(p.(isActive := false)) else Some(p)
                 else if p.updatedAt + c.inactivePeerTtl * 1_000_000_000 < later then None
                 else Some(p)
  {
    var ac, ic := ActiveCutoff(c, now), InactiveCutoff(c, later);
    var ps' := ReapedPeers(ac, ic, ps);
    ReapedDistinct(ac, ic, ps);
    LookupIsMembership(ps, k);
    LookupIsMembership(ps', k);
    if Lookup(ps, k).Some? {
      var o := (k, Lookup(ps, k).value);
      ReapedMembers(ac, ic, ps, Aged(ac, o));
    }
    if Lookup(ps', k).Some? {
      var e := (k, Lookup(ps', k).value);
      ReapedMembers(ac, ic, ps, e);
      var o :| o in ps && IsKept(ic, o.1) && e == Aged(ac, o);
      assert o == (k, o.1);
    }
  }

  /** What matters of a peer when it announces again */
  predicate IsRemembered(ps: PeerStore, k: PeerIndex, p: Peer) {
    match Lookup(ps, k)
    case Some(r) => r.(isActive := p.isActive) == p
    case None => false
  }

  /** The peer does not announce, and no pass comes later than the time to live of inactive peers after its last
      announce */
  predicate IsSilence(c: Config, k: PeerIndex, last: Time, evs: seq<TorrentEvent>) {
    forall i :: 0 <= i < |evs| ==>
      match evs[i]
      case Announced(user, q, _) => PeerIndex(user, q.peerId) != k
      case Reaped(_, later) => later <= last + c.inactivePeerTtl * 1_000_000_000
  }

  lemma OthersStay(c: Config, ps: PeerStore, k: PeerIndex, user: UserId, q: Request, hit: bool)
    requires Distinct(ps) && PeerIndex(user, q.peerId) != k
    ensures var ps' := After(c, ps, Announced(user, q, hit));
            Distinct(ps') && Lookup(ps', k) == Lookup(ps, k)
  {
    var key := IndexOf(user, q);
    var i := Find(ps, key);
    if PeerChange(c, ps, user, q, hit).Ok? {
      if q.event == Stopped {
        LookupAfterRemoval(ps, i, k);
      } else if i < |ps| {
        PutSpec(ps, key, UpdatedPeer(c, ps[i].1, q, hit));
      } else {
        PutSpec(ps, key, NewPeer(q, hit));
      }
    }
  }

  /** A peer that falls silent is remembered, its last report included, through every run of announces of others and of
      passes that come in time; so its next announce goes on from there. */
  lemma {:induction false} SilentPeersAreRemembered(c: Config, ps: PeerStore, k: PeerIndex, p: Peer, evs: seq<TorrentEvent>)
    requires Distinct(ps) && IsRemembered(ps, k, p) && IsSilence(c, k, p.updatedAt, evs)
    ensures Distinct(AfterAll(c, ps, evs)) && IsRemembered(AfterAll(c, ps, evs), k, p)
    decreases |evs|
  {
    if evs != [] {
      match evs[0] {
        case Announced(user, q, hit) => OthersStay(c, ps, k, user, q, hit);
        case Reaped(now, later) => PassIff(c, now, later, ps, k);
      }
      assert IsSilence(c, k, p.updatedAt, evs[1..]) by {
        assert forall i :: 0 <= i < |evs[1..]| ==> evs[1..][i] == evs[i + 1];
      }
      SilentPeersAreRemembered(c, After(c, ps, evs[0]), k, p, evs[1..]);
    }
  }
}
