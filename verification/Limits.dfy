/** The limits over runs of announces and passes: the exact condition under which the active peers of a user on a
    torrent stay within theirs, and runs that get past the one or the other. */
module Limits {
  import opened MachineInts
  import opened Tables
  import opened Updates
  import opened Peers
  import opened Announces
  import opened Reaper

  function ActivePeers(c: Config, u: UserId, ps: PeerStore): nat {
    Tally(c, ActiveOf(u), ps)
  }

  /** The user never has more active peers than the bound */
  predicate NeverAbove(c: Config, u: UserId, bound: nat, ps: PeerStore, evs: seq<TorrentEvent>)
    decreases |evs|
  {
    ActivePeers(c, u, ps) <= bound && (evs == [] || NeverAbove(c, u, bound, After(c, ps, evs[0]), evs[1..]))
  }

  /** The event revives a peer of the user */
  predicate RevivesFor(u: UserId, ps: PeerStore, ev: TorrentEvent) {
    ev.Announced? && ev.user == u && Revives(ps, u, ev.q)
  }

  /** No peer of the user is revived while the bound is used up */
  predicate NoRevivalAt(c: Config, u: UserId, bound: nat, ps: PeerStore, evs: seq<TorrentEvent>)
    decreases |evs|
  {
    evs == [] ||
    (!(RevivesFor(u, ps, evs[0]) && ActivePeers(c, u, ps) >= bound)
     && NoRevivalAt(c, u, bound, After(c, ps, evs[0]), evs[1..]))
  }

  lemma StepAboveIff(c: Config, u: UserId, bound: nat, ps: PeerStore, ev: TorrentEvent)
    requires c.maxPeersPerTorrentPerUser <= bound && c.maxPeersPerTorrentPerUser < U16_MAX
    requires ActivePeers(c, u, ps) <= bound
    ensures ActivePeers(c, u, After(c, ps, ev)) > bound
            <==> RevivesFor(u, ps, ev) && ActivePeers(c, u, ps) >= bound
  {
    match ev
    case Announced(user, q, hit) =>
      if PeerChange(c, ps, user, q, hit).Ok? {
        ActiveAfterAnnounce(c, ps, user, q, hit, u);
        if q.event != Stopped && Find(ps, IndexOf(user, q)) == |ps| {
          PeerLimitIff(c, ps, user, q, hit);
        }
      }
    case Reaped(now, later) =>
      DropIsNonNegative(c, ActiveOf(u), ActiveCutoff(c, now), InactiveCutoff(c, later), ps);
  }

  /** In a run of announces of anyone and passes at any time, a user's active peers stay within the limit, or what
      there was at the start, exactly if none of the user's peers is revived while that many are active. */
  lemma {:induction false} PeerLimitHoldsIff(c: Config, u: UserId, bound: nat, ps: PeerStore, evs: seq<TorrentEvent>)
    requires c.maxPeersPerTorrentPerUser <= bound && c.maxPeersPerTorrentPerUser < U16_MAX
    requires ActivePeers(c, u, ps) <= bound
    ensures NeverAbove(c, u, bound, ps, evs) <==> NoRevivalAt(c, u, bound, ps, evs)
    decreases |evs|
  {
    if evs != [] {
      StepAboveIff(c, u, bound, ps, evs[0]);
      if ActivePeers(c, u, After(c, ps, evs[0])) <= bound {
        PeerLimitHoldsIff(c, u, bound, After(c, ps, evs[0]), evs[1..]);
      }
    }
  }

  predicate NoRevivals(c: Config, ps: PeerStore, evs: seq<TorrentEvent>)
    decreases |evs|
  {
    evs == [] ||
    ((evs[0].Announced? ==> !Revives(ps, evs[0].user, evs[0].q)) && NoRevivals(c, After(c, ps, evs[0]), evs[1..]))
  }

  lemma {:induction false} NoRevivalsSuffice(c: Config, u: UserId, bound: nat, ps: PeerStore, evs: seq<TorrentEvent>)
    requires NoRevivals(c, ps, evs)
    ensures NoRevivalAt(c, u, bound, ps, evs)
    decreases |evs|
  {
    if evs != [] {
      NoRevivalsSuffice(c, u, bound, After(c, ps, evs[0]), evs[1..]);
    }
  }

  lemma {:induction false} NeverAboveAtEnd(c: Config, u: UserId, bound: nat, ps: PeerStore, evs: seq<TorrentEvent>)
    requires NeverAbove(c, u, bound, ps, evs)
    ensures ActivePeers(c, u, AfterAll(c, ps, evs)) <= bound
    decreases |evs|
  {
    if evs != [] {
      NeverAboveAtEnd(c, u, bound, After(c, ps, evs[0]), evs[1..]);
    }
  }

  /** In runs that bring no inactive peer back, no user ever has more active peers on the torrent than the
      limit, or than at the start. */
  lemma PeerLimitHolds(c: Config, ps: PeerStore, evs: seq<TorrentEvent>, u: UserId)
    requires NoRevivals(c, ps, evs) && c.maxPeersPerTorrentPerUser < U16_MAX
    ensures Tally(c, ActiveOf(u), AfterAll(c, ps, evs))
            <= Max(c.maxPeersPerTorrentPerUser, Tally(c, ActiveOf(u), ps))
  {
    var bound := Max(c.maxPeersPerTorrentPerUser, ActivePeers(c, u, ps));
    NoRevivalsSuffice(c, u, bound, ps, evs);
    PeerLimitHoldsIff(c, u, bound, ps, evs);
    NeverAboveAtEnd(c, u, bound, ps, evs);
  }

  // ---- Runs that break the limit ----

  predicate IsStart(q: Request) {
    q.event != Stopped
  }

  /** A limit of one, a first peer that goes inactive, a second one, and the first one again */
  function RevivalRun(user: UserId, first: Request, second: Request, again: Request, now: Time, later: Time)
      : seq<TorrentEvent> {
    [Announced(user, first, false), Reaped(now, later), Announced(user, second, false), Announced(user, again, false)]
  }

  lemma InsertedAlone(c: Config, user: UserId, q: Request)
    requires IsStart(q) && c.maxPeersPerTorrentPerUser >= 1
    ensures After(c, [], Announced(user, q, false)) == [(IndexOf(user, q), NewPeer(q, false))]
  {
    TallyOne(c, ActiveOf(user), (IndexOf(user, q), NewPeer(q, false)));
    assert [] + [(IndexOf(user, q), NewPeer(q, false))] == [(IndexOf(user, q), NewPeer(q, false))];
  }

  lemma ExpiredAlone(c: Config, e: Entry, now: Time, later: Time)
    requires e.1.isActive && e.1.updatedAt < ActiveCutoff(c, now)
    ensures After(c, [e], Reaped(now, later)) == [(e.0, e.1.(isActive := false))]
  {
    assert [e][1..] == [];
    assert Retained(InactiveCutoff(c, later), [e]) == [e];
    assert AgedAll(ActiveCutoff(c, now), [e]) == [Aged(ActiveCutoff(c, now), e)];
  }

  lemma InsertedBeside(c: Config, user: UserId, e: Entry, q: Request)
    requires IsStart(q) && !e.1.isActive && e.0 != IndexOf(user, q) && c.maxPeersPerTorrentPerUser >= 1
    ensures After(c, [e], Announced(user, q, false)) == [e, (IndexOf(user, q), NewPeer(q, false))]
  {
    var new_ := (IndexOf(user, q), NewPeer(q, false));
    assert [e][1..] == [] && [e] + [new_] == [e, new_];
    TallyOne(c, ActiveOf(user), e);
    TallyPush(c, ActiveOf(user), [e], new_);
  }

  /** With a limit of one the user ends up with two active peers */
  lemma RevivalExceedsLimit(c: Config, user: UserId, first: Request, second: Request, again: Request, now: Time,
                            later: Time)
    requires c.maxPeersPerTorrentPerUser == 1
    requires IsStart(first) && IsStart(second) && IsStart(again)
    requires first.peerId == again.peerId != second.peerId && first.now < ActiveCutoff(c, now)
    ensures ActivePeers(c, user, AfterAll(c, [], RevivalRun(user, first, second, again, now, later))) == 2
  {
    var e1 := (IndexOf(user, first), NewPeer(first, false));
    var idle := (e1.0, e1.1.(isActive := false));
    var e2 := (IndexOf(user, second), NewPeer(second, false));
    InsertedAlone(c, user, first);
    ExpiredAlone(c, e1, now, later);
    InsertedBeside(c, user, idle, second);
    RevivedBeside(c, user, idle, e2, again);
    FourEvents(c, [], Announced(user, first, false), Reaped(now, later), Announced(user, second, false),
               Announced(user, again, false));
  }

  lemma RevivedBeside(c: Config, user: UserId, idle: Entry, other: Entry, q: Request)
    requires IsStart(q) && idle.0 == IndexOf(user, q) && other.0.user == user && !idle.1.isActive && other.1.isActive
    ensures ActivePeers(c, user, After(c, [idle, other], Announced(user, q, false))) == 2
  {
    assert [idle] + [other] == [idle, other];
    TallyOne(c, ActiveOf(user), idle);
    TallyPush(c, ActiveOf(user), [idle], other);
    ActiveAfterAnnounce(c, [idle, other], user, q, false, user);
  }

  lemma FourEvents(c: Config, ps: PeerStore, a: TorrentEvent, b: TorrentEvent, d: TorrentEvent, e: TorrentEvent)
    ensures AfterAll(c, ps, [a, b, d, e]) == After(c, After(c, After(c, After(c, ps, a), b), d), e)
  {
    var ps1 := After(c, ps, a);
    var ps2 := After(c, ps1, b);
    var ps3 := After(c, ps2, d);
    FirstEvent(c, ps, a, [b, d, e]);
    FirstEvent(c, ps1, b, [d, e]);
    FirstEvent(c, ps2, d, [e]);
    FirstEvent(c, ps3, e, []);
    assert [a] + [b, d, e] == [a, b, d, e] && [b] + [d, e] == [b, d, e] && [d] + [e] == [d, e] && [e] + [] == [e];
  }

  lemma FirstEvent(c: Config, ps: PeerStore, ev: TorrentEvent, rest: seq<TorrentEvent>)
    ensures AfterAll(c, ps, [ev] + rest) == AfterAll(c, After(c, ps, ev), rest)
  {
    assert ([ev] + rest)[0] == ev && ([ev] + rest)[1..] == rest;
  }

  /** Announces that insert peers, one after the other */
  function Inserts(user: UserId, qs: seq<Request>): seq<TorrentEvent> {
    if qs == [] then [] else [Announced(user, qs[0], false)] + Inserts(user, qs[1..])
  }

  ghost predicate FreshPeers(user: UserId, ps: PeerStore, qs: seq<Request>) {
    && (forall i :: 0 <= i < |qs| ==> IsStart(qs[i]) && Find(ps, IndexOf(user, qs[i])) == |ps|)
    && (forall i, j :: 0 <= i < j < |qs| ==> qs[i].peerId != qs[j].peerId)
  }

  /** The largest limit is none: any number of new peers of one user is let in */
  lemma {:induction false} LargestLimitIsNone(c: Config, user: UserId, ps: PeerStore, qs: seq<Request>)
    requires c.maxPeersPerTorrentPerUser == U16_MAX && FreshPeers(user, ps, qs)
    ensures ActivePeers(c, user, AfterAll(c, ps, Inserts(user, qs))) == ActivePeers(c, user, ps) + |qs|
    decreases |qs|
  {
    if qs != [] {
      var ps' := After(c, ps, Announced(user, qs[0], false));
      ActiveAfterAnnounce(c, ps, user, qs[0], false, user);
      forall i | 1 <= i < |qs| ensures Find(ps', IndexOf(user, qs[i])) == |ps'| {
        StillFresh(ps, (IndexOf(user, qs[0]), NewPeer(qs[0], false)), IndexOf(user, qs[i]));
      }
      LargestLimitIsNone(c, user, ps', qs[1..]);
    }
  }

  lemma StillFresh(ps: PeerStore, e: Entry, k: PeerIndex)
    requires Find(ps, k) == |ps| && e.0 != k
    ensures Find(ps + [e], k) == |ps + [e]|
  {
    var more := ps + [e];
    assert forall j :: 0 <= j < |ps| ==> more[j] == ps[j];
    assert more[|ps|] == e;
  }

  // ---- Runs that slip past the slot limit ----

  /** A peer that seeds and then leeches takes a slot though none is free */
  lemma SeederTakesSlot(c: Config, user: UserId, seeding: Request, leeching: Request)
    requires IsStart(seeding) && IsStart(leeching) && seeding.peerId == leeching.peerId
    requires seeding.left == 0 && leeching.left > 0 && seeding.isConnectable && leeching.isConnectable
    requires c.maxPeersPerTorrentPerUser >= 1
    ensures var ps := After(c, [], Announced(user, seeding, false));
            && SlipsPastSlotLimit(c, ps, user, leeching)
            && Tally(c, LeechesOf(user), ps) == 0
            && Tally(c, LeechesOf(user), After(c, ps, Announced(user, leeching, true))) == 1
  {
    InsertedAlone(c, user, seeding);
    var e := (IndexOf(user, seeding), NewPeer(seeding, false));
    TallyOne(c, LeechesOf(user), e);
    assert Find([e], IndexOf(user, leeching)) == 0;
    DeltasAreCountChanges(c, [e], user, leeching, true, LeechesOf(user));
  }
}
