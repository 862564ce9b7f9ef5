/** The part of an announce that runs while its torrent is locked: the change of the peers, the peers handed out,
    and the body of the reply. */
module Serving {
  import opened MachineInts
  import opened Results
  import opened Tables
  import opened Updates
  import opened Errors
  import Warnings
  import opened Peers
  import opened Announces
  import opened PeerLists
  import opened CompactPeers
  import opened TorrentStore
  import opened Admissions
  import opened Replies
  import Bencode
  import Swarms

  /** Whether the user may be sent seeds, and leeches, without having asked for them too often */
  datatype RateLimits = RateLimits(underSeed: bool, underLeech: bool)

  function DemandOf(call: Call, user: UserId, t: Torrent, ch: Change, limits: RateLimits): Demand {
    Demand(user, call.request.event, call.request.left, call.request.numwant, t.seeders, t.leechers,
           ch.warnings != [], limits.underSeed, limits.underLeech)
  }

  /** The reply tells the client the counters after its own announce, unless they are withheld; an interval within
      the settings; the chosen peers; and the warnings. */
  ghost predicate IsReply(c: Config, t: Torrent, ch: Change, s: Selection, r: AnnounceReply) {
    && r.complete == (if s.isOverSeedLimit || ch.warnings != [] then 0 else t.seeders)
    && r.incomplete == (if s.isOverLeechLimit || ch.warnings != [] then 0 else t.leechers)
    && r.downloaded == t.timesCompleted
    && c.announceMin <= r.interval <= c.announceMax && r.minInterval == c.announceMin
    && ReadSockets(4, OctetsOf(r.peers)) == Some(SocketsV4(ContactsOf(s.Entries())))
    && ReadSockets(16, OctetsOf(r.peers6)) == Some(SocketsV6(ContactsOf(s.Entries())))
    && r.warning == Warnings.Message(ch.warnings)
  }

  /** What is sent, with how it came about */
  datatype Served = Served(change: Change, selection: Selection, reply: AnnounceReply, body: string)

  ghost predicate IsServed(c: Config, t: Torrent, call: Call, user: UserId, limits: RateLimits, v: Served) {
    && IsSelection(c, t.peers, DemandOf(call, user, t, v.change, limits), v.selection)
    && IsReply(c, t, v.change, v.selection, v.reply) && Bencode.Decode(v.body) == Some(ReplyFields(v.reply))
  }

  method Respond(c: Config, t: Torrent, ch: Change, s: Selection, warnings: Warnings.WarningCollection)
      returns (body: string, reply: AnnounceReply)
    requires ValidConfig(c) && warnings.warnings == ch.warnings
    ensures IsReply(c, t, ch, s, reply) && Bencode.Decode(body) == Some(ReplyFields(reply))
  {
    var ipv4, ipv6 := Serialize(ContactsOf(s.Entries()));
    RawRoundTrip(ipv4);
    RawRoundTrip(ipv6);
    var interval: nat :| c.announceMin <= interval <= c.announceMax;
    var complete := if s.isOverSeedLimit || !warnings.IsEmpty() then 0 else t.seeders;
    var incomplete := if s.isOverLeechLimit || !warnings.IsEmpty() then 0 else t.leechers;
    var message := warnings.IntoMessage();
    reply := AnnounceReply(complete, t.timesCompleted, incomplete, interval, c.announceMin, Raw(ipv4), Raw(ipv6), message);
    body := AnnounceBody(reply);
  }

  /** The locked section: a refusal leaves the torrent as it was */
  method Serve(c: Config, swarm: Swarm, call: Call, user: UserId, limits: RateLimits, hit: bool)
      returns (r: Result<Served, AnnounceError>)
    requires ValidConfig(c)
    modifies swarm
    ensures match PeerChange(c, old(swarm.peers), user, call.request, hit)
            case Err(e) => r == Err(e) && swarm.Value() == old(swarm.Value())
            case Ok(ch) =>
              && r.Ok? && r.value.change == ch
              && swarm.Value() == Swarms.AnnouncedTorrent(old(swarm.Value()), ch)
              && IsServed(c, swarm.Value(), call, user, limits, r.value)
  {
    var warnings := new Warnings.WarningCollection();
    if !call.request.isConnectable && c.requirePeerConnectivity {
      warnings.Add(Warnings.ConnectivityIssueDetected);
    }
    var changed := swarm.Announce(c, user, call.request, hit, warnings);
    match changed {
      case Err(e) =>
        return Err(e);
      case Ok(ch) =>
        var t := swarm.Value();
        var selection := SelectPeers(c, swarm.peers, DemandOf(call, user, t, ch, limits));
        var body, reply := Respond(c, t, ch, selection, warnings);
        r := Ok(Served(ch, selection, reply, body));
    }
  }

  /** A listed leech gets seeds, be it the only one: as many as it wants, or every listed seed of another user, provided
      the counters are exact and neither a warning nor a rate stands against it. */
  lemma LeechesGetSeeds(c: Config, t: Torrent, call: Call, user: UserId, limits: RateLimits, v: Served, p: Peer)
    requires IsServed(c, t, call, user, limits, v) && Distinct(t.peers)
    requires t.seeders == Tally(c, Seeds, t.peers) && t.leechers == Tally(c, Leeches, t.peers)
    requires call.request.event != Stopped && call.request.left > 0 && v.change.warnings == [] && limits.underSeed
    requires Lookup(t.peers, PeerIndex(user, call.request.peerId)) == Some(p)
    requires !p.isSeeder && p.isActive && p.isVisible && (c.requirePeerConnectivity ==> p.isConnectable)
    ensures |v.selection.seeds| == Min(call.request.numwant, |Others(c, user, true, t.peers)|)
    ensures forall e :: e in v.selection.seeds ==> e in Others(c, user, true, t.peers)
  {
    var d := DemandOf(call, user, t, v.change, limits);
    var e := (PeerIndex(user, call.request.peerId), p);
    LookupIsMembership(t.peers, e.0);
    TallyIsNumber(c, Leeches, t.peers);
    assert e in Members(c, Leeches, t.peers);
    SeedsAreFull(c, t.peers, d, v.selection);
    SeedsAreEligible(c, t.peers, d, v.selection);
    EligibleAreOthers(c, user, true, t.peers);
    forall e | e in v.selection.seeds ensures e in Others(c, user, true, t.peers) {
      OtherIsEligible(c, user, true, t.peers, e);
    }
  }

  /** With exact counters the body tells the numbers of listed seeds and leeches, unless they are withheld */
  lemma BodyTells(c: Config, t: Torrent, call: Call, user: UserId, limits: RateLimits, v: Served)
    requires IsServed(c, t, call, user, limits, v) && Distinct(t.peers)
    requires t.seeders == Tally(c, Seeds, t.peers) && t.leechers == Tally(c, Leeches, t.peers)
    ensures Bencode.Decode(v.body).Some?
    ensures var d, isWarned := Bencode.Decode(v.body).value, v.change.warnings != [];
            && ("complete", Bencode.Num(if v.selection.isOverSeedLimit || isWarned then 0
                                        else |Members(c, Seeds, t.peers)|)) in d
            && ("incomplete", Bencode.Num(if v.selection.isOverLeechLimit || isWarned then 0
                                          else |Members(c, Leeches, t.peers)|)) in d
            && ("downloaded", Bencode.Num(t.timesCompleted)) in d
            && ("min interval", Bencode.Num(c.announceMin)) in d
  {
    TallyIsNumber(c, Seeds, t.peers);
    TallyIsNumber(c, Leeches, t.peers);
    ReplyTells(v.reply);
  }
}
