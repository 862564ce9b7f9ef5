/** Peers, the settings that govern them, and how many of them the counters are meant to count. */
module Peers {
  import opened MachineInts
  import opened Results
  import opened Tables
  import opened Updates

  datatype Config = Config(
    numwantDefault: nat,
    numwantMax: nat,
    announceMin: u32,
    announceMinEnforced: u32,
    announceMax: u32,
    uploadFactor: u8,
    downloadFactor: u8,
    activePeerTtl: u64,
    inactivePeerTtl: u64,
    maxPeersPerTorrentPerUser: u16,
    requirePeerConnectivity: bool,
    donorImmunityOverride: Option<bool>,
    donorUploadFactorOverride: Option<u8>,
    donorDownloadFactorOverride: Option<u8>,
    lifetimeDonorImmunityOverride: Option<bool>,
    lifetimeDonorUploadFactorOverride: Option<u8>,
    lifetimeDonorDownloadFactorOverride: Option<u8>)

  /** What start-up insists on */
  predicate ValidConfig(c: Config) {
    && c.announceMinEnforced <= c.announceMin <= c.announceMax
    && c.activePeerTtl > c.announceMax
  }

  datatype PeerIndex = PeerIndex(user: UserId, peer: PeerId)

  datatype Peer = Peer(
    ip: IpAddress,
    port: u16,
    isSeeder: bool,
    isActive: bool,
    isVisible: bool,
    isConnectable: bool,
    hasSentCompleted: bool,
    updatedAt: Time,
    uploaded: u64,
    downloaded: u64)

  type Entry = (PeerIndex, Peer)

  /** The peers of a torrent, in the order of their slots */
  type PeerStore = Table<PeerIndex, Peer>

  predicate IsIncludedInPeerList(c: Config, p: Peer) {
    if c.requirePeerConnectivity then p.isActive && p.isVisible && p.isConnectable
    else p.isActive && p.isVisible
  }

  predicate IsIncludedInSeedList(c: Config, p: Peer) {
    p.isSeeder && IsIncludedInPeerList(c, p)
  }

  predicate IsIncludedInLeechList(c: Config, p: Peer) {
    !p.isSeeder && IsIncludedInPeerList(c, p)
  }

  /** The groups of peers that are counted */
  datatype Kind = Seeds | Leeches | SeedsOf(user: UserId) | LeechesOf(user: UserId) | ActiveOf(user: UserId)

  predicate Belongs(c: Config, kind: Kind, e: Entry) {
    match kind
    case Seeds => IsIncludedInSeedList(c, e.1)
    case Leeches => IsIncludedInLeechList(c, e.1)
    case SeedsOf(u) => e.0.user == u && IsIncludedInSeedList(c, e.1)
    case LeechesOf(u) => e.0.user == u && IsIncludedInLeechList(c, e.1)
    case ActiveOf(u) => e.0.user == u && e.1.isActive
  }

  function Bit(b: bool): int {
    if b then 1 else 0
  }

  /** How many of the peers belong to the group */
  function Tally(c: Config, kind: Kind, ps: PeerStore): (n: nat)
    ensures n <= |ps|
  {
    if ps == [] then 0 else Bit(Belongs(c, kind, ps[0])) + Tally(c, kind, ps[1..])
  }

  /** The peers that a group is about, in terms of what is known of them: listed are the active and visible ones, of those
      that can be connected to if that is required. */
  ghost function Members(c: Config, kind: Kind, ps: PeerStore): set<Entry> {
    set e | e in ps &&
      match kind
      case Seeds => e.1.isSeeder && e.1.isActive && e.1.isVisible && (c.requirePeerConnectivity ==> e.1.isConnectable)
      case Leeches => !e.1.isSeeder && e.1.isActive && e.1.isVisible && (c.requirePeerConnectivity ==> e.1.isConnectable)
      case SeedsOf(u) =>
        && e.0.user == u && e.1.isSeeder
        && e.1.isActive && e.1.isVisible && (c.requirePeerConnectivity ==> e.1.isConnectable)
      case LeechesOf(u) =>
        && e.0.user == u && !e.1.isSeeder
        && e.1.isActive && e.1.isVisible && (c.requirePeerConnectivity ==> e.1.isConnectable)
      case ActiveOf(u) => e.0.user == u && e.1.isActive
  }

  lemma MembersCons(c: Config, kind: Kind, e: Entry, rest: PeerStore)
    requires e !in rest
    ensures Members(c, kind, [e] + rest) == Members(c, kind, rest) + (if Belongs(c, kind, e) then {e} else {})
    ensures e !in Members(c, kind, rest)
  {
    forall x ensures x in [e] + rest <==> x == e || x in rest {
    }
  }

  /** A group's count is the number of its members */
  lemma {:induction false} TallyIsNumber(c: Config, kind: Kind, ps: PeerStore)
    requires Distinct(ps)
    ensures Tally(c, kind, ps) == |Members(c, kind, ps)|
  {
    if ps != [] {
      var e, rest := ps[0], ps[1..];
      assert ps == [e] + rest;
      assert forall i :: 0 <= i < |rest| ==> rest[i] == ps[i + 1];
      TallyIsNumber(c, kind, rest);
      MembersCons(c, kind, e, rest);
    }
  }

  lemma {:induction false} TallyConcat(c: Config, kind: Kind, a: PeerStore, b: PeerStore)
    ensures Tally(c, kind, a + b) == Tally(c, kind, a) + Tally(c, kind, b)
  {
    if a == [] {
      assert a + b == b;
    } else {
      TallyConcat(c, kind, a[1..], b);
      assert (a + b)[0] == a[0] && (a + b)[1..] == a[1..] + b;
    }
  }

  lemma TallyOne(c: Config, kind: Kind, e: Entry)
    ensures Tally(c, kind, [e]) == Bit(Belongs(c, kind, e))
  {
    assert [e][1..] == [];
    assert Tally(c, kind, []) == 0;
  }

  lemma TallyPush(c: Config, kind: Kind, ps: PeerStore, e: Entry)
    ensures Tally(c, kind, ps + [e]) == Tally(c, kind, ps) + Bit(Belongs(c, kind, e))
  {
    TallyConcat(c, kind, ps, [e]);
    TallyOne(c, kind, e);
  }

  lemma TallyAround(c: Config, kind: Kind, ps: PeerStore, i: nat)
    requires i < |ps|
    ensures Tally(c, kind, ps) == Tally(c, kind, ps[..i]) + Bit(Belongs(c, kind, ps[i])) + Tally(c, kind, ps[i + 1..])
  {
    assert ps == ps[..i] + [ps[i]] + ps[i + 1..];
    TallyConcat(c, kind, ps[..i] + [ps[i]], ps[i + 1..]);
    TallyPush(c, kind, ps[..i], ps[i]);
  }

  lemma TallyReplace(c: Config, kind: Kind, ps: PeerStore, i: nat, e: Entry)
    requires i < |ps|
    ensures Tally(c, kind, ps[i := e])
            == Tally(c, kind, ps) - Bit(Belongs(c, kind, ps[i])) + Bit(Belongs(c, kind, e))
  {
    TallyAround(c, kind, ps, i);
    TallyAround(c, kind, ps[i := e], i);
    assert ps[i := e][..i] == ps[..i] && ps[i := e][i + 1..] == ps[i + 1..];
  }

  lemma TallySwapRemove(c: Config, kind: Kind, ps: PeerStore, i: nat)
    requires i < |ps|
    ensures Tally(c, kind, SwapRemove(ps, i)) == Tally(c, kind, ps) - Bit(Belongs(c, kind, ps[i]))
  {
    var last := |ps| - 1;
    assert ps == ps[..last] + [ps[last]];
    TallyPush(c, kind, ps[..last], ps[last]);
    if i < last {
      TallyReplace(c, kind, ps[..last], i, ps[last]);
    }
  }

  lemma SwapRemoveDistinct<K, V>(t: Table<K, V>, i: nat)
    requires Distinct(t) && i < |t|
    ensures Distinct(SwapRemove(t, i))
    ensures forall e :: e in SwapRemove(t, i) <==> e in t && e.0 != t[i].0
  {
    var s := SwapRemove(t, i);
    assert forall j :: 0 <= j < |s| ==> s[j] == if j == i then t[|t| - 1] else t[j];
    forall e | e in t && e.0 != t[i].0 ensures e in s {
      var j :| 0 <= j < |t| && t[j] == e;
      assert if j < |t| - 1 then s[j] == e else s[i] == e;
    }
  }

  /** Removal of a slot takes out its key alone */
  lemma LookupAfterRemoval<K, V>(t: Table<K, V>, i: nat, k: K)
    requires Distinct(t) && i < |t|
    ensures Distinct(SwapRemove(t, i))
    ensures Lookup(SwapRemove(t, i), k) == if t[i].0 == k then None else Lookup(t, k)
  {
    var rest := SwapRemove(t, i);
    SwapRemoveDistinct(t, i);
    LookupIsMembership(t, k);
    LookupIsMembership(rest, k);
    if t[i].0 != k && Lookup(t, k).Some? {
      assert (k, Lookup(t, k).value) in rest;
    }
  }

  lemma PutDistinctSlot<K, V>(t: Table<K, V>, i: nat, v: V)
    requires Distinct(t) && i < |t|
    ensures Distinct(t[i := (t[i].0, v)])
  {
  }

  /** A user's listed peers are among the listed peers */
  lemma {:induction false} TallyOfUser(c: Config, u: UserId, ps: PeerStore)
    ensures Tally(c, SeedsOf(u), ps) <= Tally(c, Seeds, ps)
    ensures Tally(c, LeechesOf(u), ps) <= Tally(c, Leeches, ps)
    ensures Tally(c, Seeds, ps) + Tally(c, Leeches, ps) <= |ps|
  {
    if ps != [] {
      TallyOfUser(c, u, ps[1..]);
    }
  }
}
