/** A whole pass of the reaper over the torrent store, which is carried out in parallel: the torrents are
    independent of each other, and their effects on users and on the queue may interleave in any order. */
module Passes {
  import opened MachineInts
  import opened Tables
  import opened FlushProtocol
  import opened Updates
  import opened Peers
  import opened Reaper
  import Swarms
  import opened SwarmRuns
  import opened AtomicRuns

  type Torrent = Swarms.Torrent
  type User = Swarms.User
  type UserOp = Swarms.UserOp
  type TorrentOp = Swarms.TorrentOp

  function ApplyOps(users: map<UserId, User>, ops: seq<UserOp>): map<UserId, User>
    decreases |ops|
  {
    if ops == [] then users else ApplyOps(Swarms.AdjustedUsers(users, ops[0]), ops[1..])
  }

  function UserOpsOf(c: Config, ac: Time, ic: Time, t: Torrent): seq<UserOp> {
    Swarms.OpsOfEffects(EffectsOf(c, ac, ic, t.peers))
  }

  function ReapedAll(c: Config, ac: Time, ic: Time, ts: seq<Torrent>): seq<Torrent>
  {
    if ts == [] then [] else [Swarms.ReapedTorrent(c, ac, ic, ts[0])] + ReapedAll(c, ac, ic, ts[1..])
  }

  function AllUserOps(c: Config, ac: Time, ic: Time, ts: seq<Torrent>): seq<UserOp> {
    if ts == [] then [] else UserOpsOf(c, ac, ic, ts[0]) + AllUserOps(c, ac, ic, ts[1..])
  }

  function AllTorrentOps(c: Config, ac: Time, ic: Time, ts: seq<Torrent>): seq<TorrentOp>
  {
    if ts == [] then [] else Swarms.ReapOps(c, ac, ic, ts[0]) + AllTorrentOps(c, ac, ic, ts[1..])
  }

  predicate AreDecrements(ops: seq<UserOp>) {
    forall op :: op in ops ==> op.seeding <= 0 && op.leeching <= 0
  }

  lemma {:induction false} AllUserOpsDecrement(c: Config, ac: Time, ic: Time, ts: seq<Torrent>)
    ensures AreDecrements(AllUserOps(c, ac, ic, ts))
  {
    if ts != [] {
      AllUserOpsDecrement(c, ac, ic, ts[1..]);
      EffectOpsAreDecrements(EffectsOf(c, ac, ic, ts[0].peers));
    }
  }

  /** A user after decrements: each counter falls by their sum, but not below zero */
  function Decremented(u: User, id: UserId, ops: seq<UserOp>): User {
    u.(numSeeding := Clamp(u.numSeeding + PendingFor(Swarms.Seeders, id, ops), 0, U32_MAX),
       numLeeching := Clamp(u.numLeeching + PendingFor(Swarms.Leechers, id, ops), 0, U32_MAX))
  }

  /** Saturating decrements commute: only their sum matters */
  lemma {:induction false} DecrementsAddUp(users: map<UserId, User>, ops: seq<UserOp>, id: UserId)
    requires AreDecrements(ops)
    ensures ApplyOps(users, ops).Keys == users.Keys
    ensures id in users ==> ApplyOps(users, ops)[id] == Decremented(users[id], id, ops)
    decreases |ops|
  {
    if ops != [] {
      DecrementsAddUp(Swarms.AdjustedUsers(users, ops[0]), ops[1..], id);
      assert ops[0] in ops;
      if id in users {
        DecrementedTwice(users[id], id, ops);
      }
    }
  }

  lemma DecrementedTwice(u: User, id: UserId, ops: seq<UserOp>)
    requires ops != [] && AreDecrements(ops)
    ensures ops[0].user != id ==> Decremented(u, id, ops[1..]) == Decremented(u, id, ops)
    ensures ops[0].user == id ==> Decremented(Swarms.AdjustedUser(u, ops[0]), id, ops[1..]) == Decremented(u, id, ops)
  {
    assert ops[0] in ops;
    PendingIsNegative(Swarms.Seeders, id, ops[1..]);
    PendingIsNegative(Swarms.Leechers, id, ops[1..]);
  }

  lemma MultisetAround<T>(b: seq<T>, j: nat)
    requires j < |b|
    ensures multiset(b[..j] + b[j + 1..]) == multiset(b) - multiset{b[j]}
  {
    assert b == b[..j] + [b[j]] + b[j + 1..];
    assert multiset(b) == multiset(b[..j]) + multiset{b[j]} + multiset(b[j + 1..]);
  }

  lemma RemoveOne<T>(a: seq<T>, b: seq<T>) returns (j: nat)
    requires a != [] && multiset(a) == multiset(b)
    ensures j < |b| && b[j] == a[0]
    ensures multiset(a[1..]) == multiset(b[..j] + b[j + 1..])
  {
    MultisetAround(a, 0);
    assert a[..0] + a[1..] == a[1..];
    assert a[0] in multiset(b);
    j :| 0 <= j < |b| && b[j] == a[0];
    MultisetAround(b, j);
  }

  lemma {:induction false} PendingOfPermutation(col: Swarms.Column, u: UserId, a: seq<UserOp>, b: seq<UserOp>)
    requires multiset(a) == multiset(b)
    ensures PendingFor(col, u, a) == PendingFor(col, u, b)
    decreases |a|
  {
    if a != [] {
      var j := RemoveOne(a, b);
      PendingWithout(col, u, b, j);
      PendingOfPermutation(col, u, a[1..], b[..j] + b[j + 1..]);
    } else if b != [] {
      var j := RemoveOne(b, a);
    }
  }

  /** Every queued update of a pass belongs to one of its torrents */
  lemma {:induction false} TorrentOpsBelong(c: Config, ac: Time, ic: Time, ts: seq<Torrent>, id: TorrentId)
    requires forall i :: 0 <= i < |ts| ==> ts[i].id != id
    ensures forall op :: op in AllTorrentOps(c, ac, ic, ts) ==> op.0 != id
  {
    if ts != [] {
      TorrentOpsBelong(c, ac, ic, ts[1..], id);
    }
  }

  lemma {:induction false} TorrentOpsDistinct(c: Config, ac: Time, ic: Time, ts: seq<Torrent>)
    requires Swarms.DistinctIds(ts)
    ensures Distinct(AllTorrentOps(c, ac, ic, ts))
  {
    if ts != [] {
      TorrentOpsDistinct(c, ac, ic, ts[1..]);
      TorrentOpsBelong(c, ac, ic, ts[1..], ts[0].id);
      var first, rest := Swarms.ReapOps(c, ac, ic, ts[0]), AllTorrentOps(c, ac, ic, ts[1..]);
      assert forall j :: 0 <= j < |rest| ==> rest[j] in rest;
      assert forall op :: op in first ==> op.0 == ts[0].id;
    }
  }

  lemma PermutedDecrements(users: map<UserId, User>, a: seq<UserOp>, b: seq<UserOp>)
    requires AreDecrements(a) && multiset(a) == multiset(b)
    ensures ApplyOps(users, a) == ApplyOps(users, b)
  {
    assert forall op :: op in b ==> op in multiset(b);
    forall id: UserId
      ensures ApplyOps(users, a).Keys == ApplyOps(users, b).Keys == users.Keys
      ensures id in users ==> ApplyOps(users, a)[id] == ApplyOps(users, b)[id]
    {
      DecrementsAddUp(users, a, id);
      DecrementsAddUp(users, b, id);
      PendingOfPermutation(Swarms.Seeders, id, a, b);
      PendingOfPermutation(Swarms.Leechers, id, a, b);
    }
    DecrementsAddUp(users, a, 0);
    DecrementsAddUp(users, b, 0);
  }

  lemma PermutedUpserts<V>(merge: (V, V) -> V, queue: Table<TorrentId, V>, a: Table<TorrentId, V>,
                           b: Table<TorrentId, V>, id: TorrentId)
    requires Distinct(queue) && Distinct(a) && multiset(a) == multiset(b)
    ensures Lookup(UpsertedAll(merge, queue, a), id) == Lookup(UpsertedAll(merge, queue, b), id)
  {
    DistinctUnderPermutation(a, b);
    UpsertedAllSpec(merge, queue, a, id);
    UpsertedAllSpec(merge, queue, b, id);
  }

  /** Whatever the order in which the torrents of a pass are processed, and however their effects interleave,
      users end up the same, and so does the queued update of every torrent. */
  lemma ParallelPassIsOrderIndependent(
      c: Config, ac: Time, ic: Time, ts: seq<Torrent>, users: map<UserId, User>,
      queue: Table<TorrentId, TorrentUpdate>, userOps: seq<UserOp>, torrentOps: seq<TorrentOp>)
    requires Swarms.DistinctIds(ts) && Distinct(queue)
    requires multiset(userOps) == multiset(AllUserOps(c, ac, ic, ts))
    requires multiset(torrentOps) == multiset(AllTorrentOps(c, ac, ic, ts))
    ensures ApplyOps(users, userOps) == ApplyOps(users, AllUserOps(c, ac, ic, ts))
    ensures forall id :: Lookup(UpsertedAll(TorrentPolicy().merge, queue, torrentOps), id)
                         == Lookup(UpsertedAll(TorrentPolicy().merge, queue, AllTorrentOps(c, ac, ic, ts)), id)
  {
    AllUserOpsDecrement(c, ac, ic, ts);
    PermutedDecrements(users, AllUserOps(c, ac, ic, ts), userOps);
    TorrentOpsDistinct(c, ac, ic, ts);
    forall id
      ensures Lookup(UpsertedAll(TorrentPolicy().merge, queue, torrentOps), id)
              == Lookup(UpsertedAll(TorrentPolicy().merge, queue, AllTorrentOps(c, ac, ic, ts)), id)
    {
      PermutedUpserts(TorrentPolicy().merge, queue, AllTorrentOps(c, ac, ic, ts), torrentOps, id);
    }
  }

  // ---- A pass torrent by torrent ----

  lemma {:induction false} ApplyOpsConcat(users: map<UserId, User>, a: seq<UserOp>, b: seq<UserOp>)
    ensures ApplyOps(users, a + b) == ApplyOps(ApplyOps(users, a), b)
    decreases |a|
  {
    if a == [] {
      assert a + b == b;
    } else {
      ApplyOpsConcat(Swarms.AdjustedUsers(users, a[0]), a[1..], b);
      assert (a + b)[0] == a[0] && (a + b)[1..] == a[1..] + b;
    }
  }

  lemma {:induction false} UpsertedAllConcat<K, V>(merge: (V, V) -> V, q: Table<K, V>, a: Table<K, V>, b: Table<K, V>)
    ensures UpsertedAll(merge, q, a + b) == UpsertedAll(merge, UpsertedAll(merge, q, a), b)
    decreases |a|
  {
    if |a| == 0 {
      assert a + b == b;
    } else {
      UpsertedAllConcat(merge, Upserted(merge, q, a[0].0, a[0].1), a[1..], b);
      assert (a + b)[0] == a[0] && (a + b)[1..] == a[1..] + b;
    }
  }

  lemma {:induction false} ReapedAllLength(c: Config, ac: Time, ic: Time, ts: seq<Torrent>)
    ensures |ReapedAll(c, ac, ic, ts)| == |ts|
  {
    if ts != [] {
      ReapedAllLength(c, ac, ic, ts[1..]);
    }
  }

  lemma {:induction false} ReapedAllSnoc(c: Config, ac: Time, ic: Time, ts: seq<Torrent>, t: Torrent)
    ensures ReapedAll(c, ac, ic, ts + [t]) == ReapedAll(c, ac, ic, ts) + [Swarms.ReapedTorrent(c, ac, ic, t)]
  {
    if ts == [] {
      assert ts + [t] == [t] && [t][1..] == [];
    } else {
      ReapedAllSnoc(c, ac, ic, ts[1..], t);
      assert (ts + [t])[0] == ts[0] && (ts + [t])[1..] == ts[1..] + [t];
    }
  }

  /** The store after the first `i` torrents of a pass */
  function PartlyReaped(c: Config, ac: Time, ic: Time, ts: seq<Torrent>, i: nat): seq<Torrent>
    requires i <= |ts|
  {
    ReapedAll(c, ac, ic, ts[..i]) + ts[i..]
  }

  lemma PartlyReapedStep(c: Config, ac: Time, ic: Time, ts: seq<Torrent>, i: nat)
    requires i < |ts|
    ensures |PartlyReaped(c, ac, ic, ts, i)| == |ts| && PartlyReaped(c, ac, ic, ts, i)[i] == ts[i]
    ensures PartlyReaped(c, ac, ic, ts, i + 1)
            == PartlyReaped(c, ac, ic, ts, i)[i := Swarms.ReapedTorrent(c, ac, ic, ts[i])]
  {
    assert ts[..i + 1] == ts[..i] + [ts[i]];
    ReapedAllLength(c, ac, ic, ts[..i]);
    ReapedAllSnoc(c, ac, ic, ts[..i], ts[i]);
  }

  lemma PartlyReapedEnds(c: Config, ac: Time, ic: Time, ts: seq<Torrent>)
    ensures PartlyReaped(c, ac, ic, ts, 0) == ts
    ensures PartlyReaped(c, ac, ic, ts, |ts|) == ReapedAll(c, ac, ic, ts)
  {
    assert ts[..|ts|] == ts && ts[|ts|..] == [] && ts[..0] == [] && ts[0..] == ts;
  }

  /** The operations of the next torrent come before those of the rest */
  lemma PassOpsStep(c: Config, ac: Time, ic: Time, ts: seq<Torrent>, i: nat, users: map<UserId, User>,
                    queue: Table<TorrentId, TorrentUpdate>)
    requires i < |ts|
    ensures ApplyOps(users, AllUserOps(c, ac, ic, ts[i..]))
            == ApplyOps(ApplyOps(users, UserOpsOf(c, ac, ic, ts[i])), AllUserOps(c, ac, ic, ts[i + 1..]))
    ensures UpsertedAll(TorrentPolicy().merge, queue, AllTorrentOps(c, ac, ic, ts[i..]))
            == UpsertedAll(TorrentPolicy().merge,
                           UpsertedAll(TorrentPolicy().merge, queue, Swarms.ReapOps(c, ac, ic, ts[i])),
                           AllTorrentOps(c, ac, ic, ts[i + 1..]))
  {
    assert ts[i..][0] == ts[i] && ts[i..][1..] == ts[i + 1..];
    ApplyOpsConcat(users, UserOpsOf(c, ac, ic, ts[i]), AllUserOps(c, ac, ic, ts[i + 1..]));
    UpsertedAllConcat(TorrentPolicy().merge, queue, Swarms.ReapOps(c, ac, ic, ts[i]), AllTorrentOps(c, ac, ic, ts[i + 1..]));
  }

  // ---- The atomic steps in closed form ----

  ghost function Settled(w: Swarms.World): Swarms.World {
    w.(users := ApplyOps(w.users, w.userOps), userOps := [],
       sync := w.sync.(queue := UpsertedAll(TorrentPolicy().merge, w.sync.queue, w.torrentOps)), torrentOps := [])
  }

  /** Settling carries out all user operations, then all torrent operations, in order */
  lemma {:induction false} SettleIsSettled(c: Config, w: Swarms.World)
    ensures Settle(c, w) == Settled(w)
    decreases |w.userOps| + |w.torrentOps|
  {
    if w.userOps != [] {
      var w' := Swarms.Next(c, w, Swarms.ApplyUserOp(0));
      assert w'.userOps == w.userOps[1..];
      SettleIsSettled(c, w');
    } else if w.torrentOps != [] {
      var w' := Swarms.Next(c, w, Swarms.ApplyTorrentOp(0));
      assert w'.torrentOps == w.torrentOps[1..];
      SettleIsSettled(c, w');
    }
  }
}
