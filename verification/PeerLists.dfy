/** The peers handed out in reply to an announce: seeds first for those who leech, then leeches, chosen at random
    among the listed peers of other users. */
module PeerLists {
  import opened MachineInts
  import opened Tables
  import opened Updates
  import opened Peers
  import opened Announces
  import opened CompactPeers

  /** What an announce looks at when it chooses peers: the torrent's counters after the announce, whether the reply
      carries warnings, and whether the user's two rates are under their limits. */
  datatype Demand = Demand(
    user: UserId, event: Event, left: u64, numwant: nat, seeders: u32, leechers: u32,
    hasWarnings: bool, underSeedLimit: bool, underLeechLimit: bool)

  /** The seeds and the leeches chosen, and which of the two the user asked for or asked for too often */
  datatype Selection = Selection(
    seeds: PeerStore, leeches: PeerStore, hasRequestedSeeds: bool, hasRequestedLeeches: bool,
    isOverSeedLimit: bool, isOverLeechLimit: bool)
  {
    function Entries(): PeerStore {
      seeds + leeches
    }
  }

  predicate IsEligible(c: Config, user: UserId, seeder: bool, e: Entry) {
    e.0.user != user && IsIncludedInPeerList(c, e.1) && e.1.isSeeder == seeder
  }

  /** The listed seeds, or leeches, of other users, in the order of the store */
  function Eligible(c: Config, user: UserId, seeder: bool, ps: PeerStore): PeerStore {
    if ps == [] then []
    else (if IsEligible(c, user, seeder, ps[0]) then [ps[0]] else []) + Eligible(c, user, seeder, ps[1..])
  }

  /** A random choice without repetition: as many as wanted, or all there are, in some order */
  ghost predicate IsSample<T>(pool: seq<T>, n: nat, picked: seq<T>) {
    multiset(picked) <= multiset(pool) && |picked| == Min(n, |pool|)
  }

  lemma WithoutOne<T>(rest: seq<T>, k: nat)
    requires k < |rest|
    ensures multiset(rest) == multiset(rest[..k] + rest[k + 1..]) + multiset{rest[k]}
  {
    assert rest == rest[..k] + [rest[k]] + rest[k + 1..];
  }

  /** `choose_multiple`, with arbitrary draws */
  method ChooseMultiple<T>(pool: seq<T>, n: nat) returns (picked: seq<T>)
    ensures IsSample(pool, n, picked)
  {
    picked := [];
    var rest := pool;
    while |picked| < n && |rest| > 0
      invariant multiset(pool) == multiset(picked) + multiset(rest)
      invariant |picked| <= n && |picked| + |rest| == |pool|
      decreases |rest|
    {
      var k: nat :| k < |rest|;
      WithoutOne(rest, k);
      picked := picked + [rest[k]];
      rest := rest[..k] + rest[k + 1..];
    }
  }

  method CollectEligible(c: Config, user: UserId, seeder: bool, ps: PeerStore) returns (r: PeerStore)
    ensures r == Eligible(c, user, seeder, ps)
  {
    r := [];
    for i := 0 to |ps|
      invariant r + Eligible(c, user, seeder, ps[i..]) == Eligible(c, user, seeder, ps)
    {
      assert ps[i..][0] == ps[i] && ps[i..][1..] == ps[i + 1..];
      if IsEligible(c, user, seeder, ps[i]) {
        r := r + [ps[i]];
      }
    }
  }

  predicate AsksForPeers(d: Demand) {
    d.event != Stopped && d.leechers > 0 && !d.hasWarnings
  }

  predicate AsksForSeeds(d: Demand) {
    AsksForPeers(d) && d.left > 0 && d.seeders > 0 && d.numwant > 0
  }

  /** The choice the tracker makes, up to the random draws: seeds first, then leeches in the room they leave */
  ghost predicate IsSelection(c: Config, ps: PeerStore, d: Demand, s: Selection) {
    && s.hasRequestedSeeds == AsksForSeeds(d)
    && s.isOverSeedLimit == (AsksForSeeds(d) && !d.underSeedLimit)
    && (if AsksForSeeds(d) && d.underSeedLimit then IsSample(Eligible(c, d.user, true, ps), d.numwant, s.seeds)
        else s.seeds == [])
    && s.hasRequestedLeeches == (AsksForPeers(d) && d.numwant > |s.seeds|)
    && s.isOverLeechLimit == (s.hasRequestedLeeches && !d.underLeechLimit)
    && (if s.hasRequestedLeeches && d.underLeechLimit
        then IsSample(Eligible(c, d.user, false, ps), d.numwant - |s.seeds|, s.leeches)
        else s.leeches == [])
  }

  method SelectPeers(c: Config, ps: PeerStore, d: Demand) returns (s: Selection)
    ensures IsSelection(c, ps, d, s)
  {
    var seeds: PeerStore, leeches: PeerStore := [], [];
    var hasRequestedSeeds, hasRequestedLeeches := false, false;
    var isOverSeedLimit, isOverLeechLimit := false, false;
    if d.event != Stopped && d.leechers > 0 && !d.hasWarnings {
      if d.left > 0 && d.seeders > 0 && d.numwant > |seeds + leeches| {
        hasRequestedSeeds := true;
        if d.underSeedLimit {
          var pool := CollectEligible(c, d.user, true, ps);
          seeds := ChooseMultiple(pool, d.numwant);
        } else {
          isOverSeedLimit := true;
        }
      }
      if d.leechers > 0 && d.numwant > |seeds + leeches| {
        hasRequestedLeeches := true;
        if d.underLeechLimit {
          var pool := CollectEligible(c, d.user, false, ps);
          leeches := ChooseMultiple(pool, d.numwant - |seeds|);
        } else {
          isOverLeechLimit := true;
        }
      }
    }
    s := Selection(seeds, leeches, hasRequestedSeeds, hasRequestedLeeches, isOverSeedLimit, isOverLeechLimit);
  }

  // ---- What every choice has in common ----

  lemma {:induction false} EligibleMembers(c: Config, user: UserId, seeder: bool, ps: PeerStore, e: Entry)
    ensures e in Eligible(c, user, seeder, ps) <==> e in ps && IsEligible(c, user, seeder, e)
  {
    if ps != [] {
      EligibleMembers(c, user, seeder, ps[1..], e);
      assert ps == [ps[0]] + ps[1..];
    }
  }

  lemma {:induction false} EligibleDistinct(c: Config, user: UserId, seeder: bool, ps: PeerStore)
    requires Distinct(ps)
    ensures Distinct(Eligible(c, user, seeder, ps))
  {
    if ps != [] {
      EligibleDistinct(c, user, seeder, ps[1..]);
      var rest := Eligible(c, user, seeder, ps[1..]);
      forall j | 0 <= j < |rest| ensures rest[j].0 != ps[0].0 {
        EligibleMembers(c, user, seeder, ps[1..], rest[j]);
        var i :| 0 <= i < |ps[1..]| && ps[1..][i] == rest[j];
        assert ps[i + 1] == rest[j];
      }
    }
  }

  lemma SampleMembers<T>(pool: seq<T>, n: nat, picked: seq<T>, x: T)
    requires IsSample(pool, n, picked)
    ensures x in picked ==> x in pool
  {
    assert x in picked <==> x in multiset(picked);
    assert x in pool <==> x in multiset(pool);
  }

  lemma SampleDistinct<K, V>(pool: Table<K, V>, n: nat, picked: Table<K, V>)
    requires Distinct(pool) && IsSample(pool, n, picked)
    ensures Distinct(picked)
  {
    forall i, j | 0 <= i < j < |picked| ensures picked[i].0 != picked[j].0 {
      SampleMembers(pool, n, picked, picked[i]);
      SampleMembers(pool, n, picked, picked[j]);
      if picked[i].0 == picked[j].0 {
        LookupIsMembership(pool, picked[i].0);
        assert picked[i] == (picked[i].0, picked[i].1) && picked[j] == (picked[i].0, picked[j].1);
        assert picked[i] == picked[j];
        TwiceAtPositions(picked, i, j);
        TwiceInMultiset(pool, picked[i]);
        assert false;
      }
    }
  }

  /** Seeds, if any, are listed seeds of other users, and only leechers get them */
  lemma SeedsAreEligible(c: Config, ps: PeerStore, d: Demand, s: Selection)
    requires Distinct(ps) && IsSelection(c, ps, d, s)
    ensures Distinct(s.seeds) && |s.seeds| <= d.numwant
    ensures forall e :: e in s.seeds ==> e in ps && IsEligible(c, d.user, true, e)
    ensures d.left == 0 ==> s.seeds == []
  {
    if AsksForSeeds(d) && d.underSeedLimit {
      var pool := Eligible(c, d.user, true, ps);
      EligibleDistinct(c, d.user, true, ps);
      SampleDistinct(pool, d.numwant, s.seeds);
      forall e | e in s.seeds ensures e in ps && IsEligible(c, d.user, true, e) {
        SampleMembers(pool, d.numwant, s.seeds, e);
        EligibleMembers(c, d.user, true, ps, e);
      }
    }
  }

  lemma LeechesAreEligible(c: Config, ps: PeerStore, d: Demand, s: Selection)
    requires Distinct(ps) && IsSelection(c, ps, d, s)
    ensures Distinct(s.leeches) && (s.leeches != [] ==> |s.seeds| + |s.leeches| <= d.numwant)
    ensures forall e :: e in s.leeches ==> e in ps && IsEligible(c, d.user, false, e)
  {
    if s.hasRequestedLeeches && d.underLeechLimit {
      var pool := Eligible(c, d.user, false, ps);
      EligibleDistinct(c, d.user, false, ps);
      SampleDistinct(pool, d.numwant - |s.seeds|, s.leeches);
      forall e | e in s.leeches ensures e in ps && IsEligible(c, d.user, false, e) {
        SampleMembers(pool, d.numwant - |s.seeds|, s.leeches, e);
        EligibleMembers(c, d.user, false, ps, e);
      }
    }
  }

  /** Whatever was drawn: at most as many peers as wanted, none twice, all of them listed peers of other users,
      seeds before leeches, and no seeds for one who seeds. */
  lemma SelectionIsSound(c: Config, ps: PeerStore, d: Demand, s: Selection)
    requires Distinct(ps) && IsSelection(c, ps, d, s)
    ensures |s.Entries()| <= d.numwant && Distinct(s.Entries())
    ensures forall e :: e in s.Entries() ==> e in ps && e.0.user != d.user && IsIncludedInPeerList(c, e.1)
    ensures forall i, j :: 0 <= i < j < |s.Entries()| && s.Entries()[j].1.isSeeder ==> s.Entries()[i].1.isSeeder
    ensures d.left == 0 ==> forall e :: e in s.Entries() ==> !e.1.isSeeder
    ensures d.event == Stopped || d.hasWarnings ==> s.Entries() == []
  {
    SeedsAreEligible(c, ps, d, s);
    LeechesAreEligible(c, ps, d, s);
    JoinDistinct(c, ps, d.user, s.seeds, s.leeches);
    assert forall e :: e in s.Entries() <==> e in s.seeds || e in s.leeches;
    assert forall i :: 0 <= i < |s.seeds| ==> s.Entries()[i] in s.seeds;
    assert forall i :: |s.seeds| <= i < |s.Entries()| ==> s.Entries()[i] in s.leeches;
  }

  lemma JoinDistinct(c: Config, ps: PeerStore, user: UserId, seeds: PeerStore, leeches: PeerStore)
    requires Distinct(ps) && Distinct(seeds) && Distinct(leeches)
    requires forall e :: e in seeds ==> e in ps && IsEligible(c, user, true, e)
    requires forall e :: e in leeches ==> e in ps && IsEligible(c, user, false, e)
    ensures Distinct(seeds + leeches)
  {
    forall i, j | 0 <= i < |seeds| && 0 <= j < |leeches| ensures seeds[i].0 != leeches[j].0 {
      assert seeds[i] in seeds && leeches[j] in leeches;
      LookupIsMembership(ps, seeds[i].0);
      assert seeds[i] == (seeds[i].0, seeds[i].1) && leeches[j] == (leeches[j].0, leeches[j].1);
    }
  }

  // ---- With exact counters the list is as full as it can be ----

  lemma {:induction false} NoListedNoneEligible(c: Config, user: UserId, seeder: bool, ps: PeerStore)
    requires Tally(c, if seeder then Seeds else Leeches, ps) == 0
    ensures Eligible(c, user, seeder, ps) == []
  {
    if ps != [] {
      NoListedNoneEligible(c, user, seeder, ps[1..]);
    }
  }

  lemma SeedsAreFull(c: Config, ps: PeerStore, d: Demand, s: Selection)
    requires IsSelection(c, ps, d, s) && d.seeders == Tally(c, Seeds, ps) && AsksForPeers(d) && d.underSeedLimit
    ensures |s.seeds| == if d.left > 0 then Min(d.numwant, |Eligible(c, d.user, true, ps)|) else 0
  {
    if d.seeders == 0 {
      NoListedNoneEligible(c, d.user, true, ps);
    }
  }

  lemma LeechesAreFull(c: Config, ps: PeerStore, d: Demand, s: Selection)
    requires IsSelection(c, ps, d, s) && AsksForPeers(d) && d.underLeechLimit && |s.seeds| <= d.numwant
    ensures |s.leeches| == Min(d.numwant - |s.seeds|, |Eligible(c, d.user, false, ps)|)
  {
  }

  /** If the seed counter is exact and no limit or warning interferes, nobody gets fewer peers than could be had:
      as many as wanted, or every eligible peer, seeds having precedence for those who leech. */
  lemma SelectionIsFull(c: Config, ps: PeerStore, d: Demand, s: Selection)
    requires IsSelection(c, ps, d, s) && d.seeders == Tally(c, Seeds, ps)
    requires d.event != Stopped && d.leechers > 0 && !d.hasWarnings && d.underSeedLimit && d.underLeechLimit
    ensures |s.seeds| == if d.left > 0 then Min(d.numwant, |Eligible(c, d.user, true, ps)|) else 0
    ensures |s.Entries()| == Min(d.numwant, |s.seeds| + |Eligible(c, d.user, false, ps)|)
  {
    SeedsAreFull(c, ps, d, s);
    LeechesAreFull(c, ps, d, s);
  }

  /** The listed peers of other users: active, visible, and connectable if that is required */
  ghost function Others(c: Config, user: UserId, seeder: bool, ps: PeerStore): set<Entry> {
    set e | && e in ps && e.0.user != user && e.1.isSeeder == seeder
            && e.1.isActive && e.1.isVisible && (c.requirePeerConnectivity ==> e.1.isConnectable)
  }

  lemma OthersCons(c: Config, user: UserId, seeder: bool, e: Entry, rest: PeerStore)
    requires e !in rest
    ensures Others(c, user, seeder, [e] + rest)
            == Others(c, user, seeder, rest) + (if IsEligible(c, user, seeder, e) then {e} else {})
    ensures e !in Others(c, user, seeder, rest)
  {
    forall x ensures x in [e] + rest <==> x == e || x in rest {
    }
  }

  /** These are the eligible ones, each once */
  lemma {:induction false} EligibleAreOthers(c: Config, user: UserId, seeder: bool, ps: PeerStore)
    requires Distinct(ps)
    ensures |Eligible(c, user, seeder, ps)| == |Others(c, user, seeder, ps)|
  {
    if ps != [] {
      var e, rest := ps[0], ps[1..];
      assert ps == [e] + rest;
      assert forall i :: 0 <= i < |rest| ==> rest[i] == ps[i + 1];
      EligibleAreOthers(c, user, seeder, rest);
      OthersCons(c, user, seeder, e, rest);
    }
  }

  lemma OtherIsEligible(c: Config, user: UserId, seeder: bool, ps: PeerStore, e: Entry)
    ensures e in Eligible(c, user, seeder, ps) <==> e in Others(c, user, seeder, ps)
  {
    EligibleMembers(c, user, seeder, ps, e);
  }

  /** When a list counts as requested, and when as withheld */
  lemma RequestedIff(c: Config, ps: PeerStore, d: Demand, s: Selection)
    requires IsSelection(c, ps, d, s)
    ensures s.hasRequestedSeeds
            <==> d.event != Stopped && d.leechers > 0 && !d.hasWarnings && d.left > 0 && d.seeders > 0 && d.numwant > 0
    ensures s.hasRequestedLeeches
            <==> d.event != Stopped && d.leechers > 0 && !d.hasWarnings && d.numwant > |s.seeds|
    ensures s.isOverSeedLimit <==> s.hasRequestedSeeds && !d.underSeedLimit
    ensures s.isOverLeechLimit <==> s.hasRequestedLeeches && !d.underLeechLimit
    ensures !s.hasRequestedSeeds || s.isOverSeedLimit ==> s.seeds == []
    ensures !s.hasRequestedLeeches || s.isOverLeechLimit ==> s.leeches == []
  {
  }

  // ---- The bytes sent ----

  function ContactsOf(entries: seq<Entry>): (cs: seq<Contact>)
    ensures |cs| == |entries|
  {
    if entries == [] then [] else [Contact(entries[0].1.ip, entries[0].1.port)] + ContactsOf(entries[1..])
  }

  lemma {:induction false} ContactsTell(entries: seq<Entry>, i: nat)
    requires i < |entries|
    ensures ContactsOf(entries)[i].ip == entries[i].1.ip && ContactsOf(entries)[i].port == entries[i].1.port
  {
    if i > 0 {
      ContactsTell(entries[1..], i - 1);
    }
  }

  /** Bytes as characters */
  function Raw(bytes: Bytes): string {
    if bytes == [] then "" else [bytes[0] as char] + Raw(bytes[1..])
  }

  function OctetsOf(s: string): Bytes {
    if s == [] then [] else [s[0] as int % 256] + OctetsOf(s[1..])
  }

  lemma {:induction false} RawRoundTrip(bytes: Bytes)
    ensures OctetsOf(Raw(bytes)) == bytes && |Raw(bytes)| == |bytes|
  {
    if bytes != [] {
      RawRoundTrip(bytes[1..]);
      assert Raw(bytes)[1..] == Raw(bytes[1..]);
    }
  }
}
