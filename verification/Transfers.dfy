/** What the per-announce deltas of a peer add up to over whole runs of its torrent. */
module Transfers {
  import opened MachineInts
  import opened Results
  import opened Tables
  import opened Updates
  import opened Peers
  import opened Announces
  import opened Reaper
  import AnnounceEffects

  datatype Direction = Up | Down

  function ReportedBy(dir: Direction, q: Request): u64 {
    if dir == Up then q.uploaded else q.downloaded
  }

  function RememberedBy(dir: Direction, p: Peer): u64 {
    if dir == Up then p.uploaded else p.downloaded
  }

  function DeltaBy(dir: Direction, ch: Change): u64 {
    if dir == Up then ch.uploadedDelta else ch.downloadedDelta
  }

  predicate IsAcceptedFrom(c: Config, ps: PeerStore, k: PeerIndex, ev: TorrentEvent) {
    ev.Announced? && IndexOf(ev.user, ev.q) == k && PeerChange(c, ps, ev.user, ev.q, ev.hit).Ok?
  }

  /** The peer's accepted reports in a run */
  function Reports(c: Config, dir: Direction, ps: PeerStore, k: PeerIndex, evs: seq<TorrentEvent>): seq<u64>
    decreases |evs|
  {
    if evs == [] then []
    else (if IsAcceptedFrom(c, ps, k, evs[0]) then [ReportedBy(dir, evs[0].q)] else [])
         + Reports(c, dir, After(c, ps, evs[0]), k, evs[1..])
  }

  /** The bytes that the peer's announces of a run counted */
  function Transferred(c: Config, dir: Direction, ps: PeerStore, k: PeerIndex, evs: seq<TorrentEvent>): nat
    decreases |evs|
  {
    if evs == [] then 0
    else (if IsAcceptedFrom(c, ps, k, evs[0])
          then DeltaBy(dir, PeerChange(c, ps, evs[0].user, evs[0].q, evs[0].hit).value) else 0)
         + Transferred(c, dir, After(c, ps, evs[0]), k, evs[1..])
  }

  /** The sum of all increases from one report to the next */
  function Rises(prev: u64, reports: seq<u64>): nat
    decreases |reports|
  {
    if reports == [] then 0 else Max(reports[0] - prev, 0) + Rises(reports[0], reports[1..])
  }

  function LastOf(prev: u64, reports: seq<u64>): u64 {
    if reports == [] then prev else reports[|reports| - 1]
  }

  predicate NonDecreasing(prev: u64, reports: seq<u64>)
    decreases |reports|
  {
    reports == [] || (prev <= reports[0] && NonDecreasing(reports[0], reports[1..]))
  }

  lemma {:induction false} RisesTelescope(prev: u64, reports: seq<u64>)
    ensures NonDecreasing(prev, reports) ==> Rises(prev, reports) == LastOf(prev, reports) - prev
    ensures Rises(prev, reports) >= LastOf(prev, reports) - prev
    decreases |reports|
  {
    if reports != [] {
      RisesTelescope(reports[0], reports[1..]);
      assert LastOf(prev, reports) == LastOf(reports[0], reports[1..]);
    }
  }

  // ---- What is remembered of a peer ----

  /** If the peer is known, its last report is */
  ghost predicate Remembers(dir: Direction, ps: PeerStore, k: PeerIndex, prev: u64) {
    Distinct(ps) && (Lookup(ps, k).Some? ==> RememberedBy(dir, Lookup(ps, k).value) == prev)
  }

  /** An announce leaves other peers alone; its own peer is gone if it stopped, and otherwise has this report */
  lemma LookupAfterAnnounce(c: Config, ps: PeerStore, k: PeerIndex, user: UserId, q: Request, hit: bool)
    requires Distinct(ps) && PeerChange(c, ps, user, q, hit).Ok?
    ensures var ps' := PeerChange(c, ps, user, q, hit).value.peers;
            && Distinct(ps')
            && (IndexOf(user, q) != k ==> Lookup(ps', k) == Lookup(ps, k))
            && (IndexOf(user, q) == k && q.event == Stopped ==> Lookup(ps', k).None?)
            && (IndexOf(user, q) == k && q.event != Stopped ==>
                  Lookup(ps', k).Some? && Lookup(ps', k).value.uploaded == q.uploaded
                  && Lookup(ps', k).value.downloaded == q.downloaded)
  {
    var key := IndexOf(user, q);
    var i := Find(ps, key);
    if q.event == Stopped {
      LookupAfterRemoval(ps, i, k);
    } else if i < |ps| {
      PutSpec(ps, key, UpdatedPeer(c, ps[i].1, q, hit));
    } else {
      PutSpec(ps, key, NewPeer(q, hit));
    }
  }

  lemma LookupAfterReap(activeCutoff: Time, inactiveCutoff: Time, ps: PeerStore, k: PeerIndex)
    requires Distinct(ps)
    ensures var ps' := ReapedPeers(activeCutoff, inactiveCutoff, ps);
            && Distinct(ps')
            && (Lookup(ps', k).Some? ==>
                  && Lookup(ps, k).Some?
                  && Lookup(ps', k).value.uploaded == Lookup(ps, k).value.uploaded
                  && Lookup(ps', k).value.downloaded == Lookup(ps, k).value.downloaded)
  {
    var ps' := ReapedPeers(activeCutoff, inactiveCutoff, ps);
    ReapedDistinct(activeCutoff, inactiveCutoff, ps);
    LookupIsMembership(ps', k);
    LookupIsMembership(ps, k);
    if Lookup(ps', k).Some? {
      var e := (k, Lookup(ps', k).value);
      ReapedMembers(activeCutoff, inactiveCutoff, ps, e);
      var o :| o in ps && IsKept(inactiveCutoff, o.1) && e == Aged(activeCutoff, o);
      assert o == (k, o.1);
    }
  }

  /** The delta of an accepted announce never exceeds the rise since the last report; and it is that rise if the
      peer is known and both reports did not fall. */
  lemma DeltaIsRise(c: Config, dir: Direction, ps: PeerStore, k: PeerIndex, prev: u64, ev: TorrentEvent)
    requires Remembers(dir, ps, k, prev) && IsAcceptedFrom(c, ps, k, ev)
    ensures var delta := DeltaBy(dir, PeerChange(c, ps, ev.user, ev.q, ev.hit).value);
            && delta <= Max(ReportedBy(dir, ev.q) - prev, 0)
            && (Lookup(ps, k).Some? && Lookup(ps, k).value.uploaded <= ev.q.uploaded
                && Lookup(ps, k).value.downloaded <= ev.q.downloaded
                ==> delta == ReportedBy(dir, ev.q) - prev)
  {
    var i := Find(ps, k);
    if i < |ps| {
      assert Lookup(ps, k) == Some(ps[i].1);
    }
  }

  lemma RemembersStep(c: Config, dir: Direction, ps: PeerStore, k: PeerIndex, prev: u64, ev: TorrentEvent)
    requires Remembers(dir, ps, k, prev)
    ensures Remembers(dir, After(c, ps, ev), k, if IsAcceptedFrom(c, ps, k, ev) then ReportedBy(dir, ev.q) else prev)
  {
    match ev
    case Announced(user, q, hit) =>
      if PeerChange(c, ps, user, q, hit).Ok? {
        LookupAfterAnnounce(c, ps, k, user, q, hit);
      }
    case Reaped(now, later) =>
      LookupAfterReap(ActiveCutoff(c, now), InactiveCutoff(c, later), ps, k);
  }

  /** Over every run, with reports that rise and fall at will, restarts, stops and passes of the reaper, a peer is
      never counted more bytes than its reports rose by. */
  lemma {:induction false} NeverMoreThanRises(
      c: Config, dir: Direction, ps: PeerStore, k: PeerIndex, prev: u64, evs: seq<TorrentEvent>)
    requires Remembers(dir, ps, k, prev)
    ensures Transferred(c, dir, ps, k, evs) <= Rises(prev, Reports(c, dir, ps, k, evs))
    decreases |evs|
  {
    if evs != [] {
      RemembersStep(c, dir, ps, k, prev, evs[0]);
      var rest := Reports(c, dir, After(c, ps, evs[0]), k, evs[1..]);
      if IsAcceptedFrom(c, ps, k, evs[0]) {
        DeltaIsRise(c, dir, ps, k, prev, evs[0]);
        NeverMoreThanRises(c, dir, After(c, ps, evs[0]), k, ReportedBy(dir, evs[0].q), evs[1..]);
        RisesCons(prev, ReportedBy(dir, evs[0].q), rest);
      } else {
        NeverMoreThanRises(c, dir, After(c, ps, evs[0]), k, prev, evs[1..]);
        assert [] + rest == rest;
      }
    }
  }

  lemma RisesCons(prev: u64, first: u64, rest: seq<u64>)
    ensures Rises(prev, [first] + rest) == Max(first - prev, 0) + Rises(first, rest)
    ensures NonDecreasing(prev, [first] + rest) <==> prev <= first && NonDecreasing(first, rest)
    ensures LastOf(prev, [first] + rest) == LastOf(first, rest)
  {
    assert ([first] + rest)[1..] == rest;
  }

  /** Each of the peer's announces finds it known, up to the end of the run or to its stop */
  predicate IsSession(c: Config, ps: PeerStore, k: PeerIndex, evs: seq<TorrentEvent>)
    decreases |evs|
  {
    evs == [] ||
    ((IsAcceptedFrom(c, ps, k, evs[0]) ==> Lookup(ps, k).Some?) && IsSession(c, After(c, ps, evs[0]), k, evs[1..]))
  }

  /** In a session whose reports never fall, the deltas add up to the last report less the first, in both
      directions, whatever happens to other peers meanwhile. */
  lemma {:induction false} SessionTelescopes(
      c: Config, ps: PeerStore, k: PeerIndex, up: u64, down: u64, evs: seq<TorrentEvent>)
    requires Remembers(Up, ps, k, up) && Remembers(Down, ps, k, down) && IsSession(c, ps, k, evs)
    requires NonDecreasing(up, Reports(c, Up, ps, k, evs)) && NonDecreasing(down, Reports(c, Down, ps, k, evs))
    ensures Transferred(c, Up, ps, k, evs) == LastOf(up, Reports(c, Up, ps, k, evs)) - up
    ensures Transferred(c, Down, ps, k, evs) == LastOf(down, Reports(c, Down, ps, k, evs)) - down
    decreases |evs|
  {
    if evs != [] {
      var ev, ps' := evs[0], After(c, ps, evs[0]);
      RemembersStep(c, Up, ps, k, up, ev);
      RemembersStep(c, Down, ps, k, down, ev);
      var ups, downs := Reports(c, Up, ps', k, evs[1..]), Reports(c, Down, ps', k, evs[1..]);
      if IsAcceptedFrom(c, ps, k, ev) {
        RisesCons(up, ev.q.uploaded, ups);
        RisesCons(down, ev.q.downloaded, downs);
        DeltaIsRise(c, Up, ps, k, up, ev);
        DeltaIsRise(c, Down, ps, k, down, ev);
        SessionTelescopes(c, ps', k, ev.q.uploaded, ev.q.downloaded, evs[1..]);
      } else {
        assert [] + ups == ups && [] + downs == downs;
        SessionTelescopes(c, ps', k, up, down, evs[1..]);
      }
    }
  }

  /** From the announce that inserts a peer on, its deltas add up to the last report less that first one */
  lemma WholeSessionTelescopes(c: Config, ps: PeerStore, user: UserId, q: Request, hit: bool, evs: seq<TorrentEvent>)
    requires Distinct(ps) && Lookup(ps, IndexOf(user, q)).None? && PeerChange(c, ps, user, q, hit).Ok?
    requires var ps' := PeerChange(c, ps, user, q, hit).value.peers;
             var k := IndexOf(user, q);
             && IsSession(c, ps', k, evs)
             && NonDecreasing(q.uploaded, Reports(c, Up, ps', k, evs))
             && NonDecreasing(q.downloaded, Reports(c, Down, ps', k, evs))
    ensures var all := [Announced(user, q, hit)] + evs;
            var k := IndexOf(user, q);
            && Transferred(c, Up, ps, k, all) == LastOf(0, Reports(c, Up, ps, k, all)) - q.uploaded
            && Transferred(c, Down, ps, k, all) == LastOf(0, Reports(c, Down, ps, k, all)) - q.downloaded
  {
    var first := Announced(user, q, hit);
    var k, ps' := IndexOf(user, q), After(c, ps, first);
    LookupAfterAnnounce(c, ps, k, user, q, hit);
    SessionTelescopes(c, ps', k, q.uploaded, q.downloaded, evs);
    assert ([first] + evs)[0] == first && ([first] + evs)[1..] == evs;
    RisesCons(0, q.uploaded, Reports(c, Up, ps', k, evs));
    RisesCons(0, q.downloaded, Reports(c, Down, ps', k, evs));
  }

  // ---- Sessions with silences ----

  /** A peer that was silent, for no longer than inactive peers are remembered, goes on where it left off: its next
      announce counts the bytes since its last report, even if it went inactive meanwhile. */
  lemma SilenceLosesNothing(c: Config, ps: PeerStore, p: Peer, evs: seq<TorrentEvent>, user: UserId, q: Request, hit: bool)
    requires Distinct(ps) && IsRemembered(ps, PeerIndex(user, q.peerId), p)
    requires IsSilence(c, PeerIndex(user, q.peerId), p.updatedAt, evs)
    requires q.event != Stopped && p.uploaded <= q.uploaded && p.downloaded <= q.downloaded
    ensures PeerChange(c, AfterAll(c, ps, evs), user, q, hit).Ok?
    ensures var ch := PeerChange(c, AfterAll(c, ps, evs), user, q, hit).value;
            && ch.uploadedDelta == q.uploaded - p.uploaded && ch.downloadedDelta == q.downloaded - p.downloaded
            && ch.timesCompletedDelta == (if q.left == 0 && !p.isSeeder then 1 else 0)
  {
    SilentPeersAreRemembered(c, ps, PeerIndex(user, q.peerId), p, evs);
    AnnounceEffects.RefusedIff(c, AfterAll(c, ps, evs), user, q, hit);
    AnnounceEffects.BytesCounted(c, AfterAll(c, ps, evs), user, q, hit);
    AnnounceEffects.CompletedIff(c, AfterAll(c, ps, evs), user, q, hit);
  }
}
