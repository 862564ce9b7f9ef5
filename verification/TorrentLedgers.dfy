/** From calls and passes to stored torrents: the queue of torrent updates, and the count of completed downloads, which
    memory and database keep in step. */
module TorrentLedgers {
  import opened MachineInts
  import opened Results
  import opened Tables
  import opened Updates
  import opened Errors
  import opened Peers
  import opened Announces
  import opened AnnounceEffects
  import opened Admissions
  import opened Tracker
  import opened FlushProtocol
  import opened KeyRuns
  import opened QueueTraces
  import opened TrackerLedgers
  import Swarms
  import Passes

  type TorrentSystem = System<TorrentId, TorrentUpdate, TorrentRow>
  type TorrentEvent = TrackerEvent<TorrentId, TorrentUpdate>

  /** The torrent update a call makes, if it is carried out and changes anything */
  function TorrentsOf(st: State, call: Call, how: How): Table<TorrentId, TorrentUpdate> {
    if how.Carried? && how.a.place < |st.torrents| then
      Swarms.TorrentOpsOf(st.torrents[how.a.place].id, how.v.change)
    else []
  }

  function TorrentFeed(x: Setup): Feed<TorrentId, TorrentUpdate, TorrentRow> {
    Feed(TorrentPolicy(), (st: State) => st.torrentUpdates, (st: State, call: Call, how: How) => TorrentsOf(st, call, how),
         (st: State, ac: Time, ic: Time) => Passes.AllTorrentOps(x.c, ac, ic, st.torrents))
  }

  lemma CallFeedsTorrents(x: Setup, st: State, call: Call, r: Result<string, AnnounceError>, how: How, st': State)
    requires IsOutcome(x, st, call, r, how, st')
    ensures st'.torrentUpdates == UpsertedAll(TorrentPolicy().merge, st.torrentUpdates, TorrentsOf(st, call, how))
  {
    OutcomeInQueues(x, st, call, r, how, st');
  }

  lemma TorrentsAreFed(x: Setup)
    ensures IsFeed(x, TorrentFeed(x))
  {
    var f := TorrentFeed(x);
    forall st, call, r, how, st' | IsOutcome(x, st, call, r, how, st')
      ensures IsFed(f, st, f.ofCall(st, call, how), st')
    {
      CallFeedsTorrents(x, st, call, r, how, st');
    }
  }

  // ---- Completed downloads ----

  function CompletedAmount(): TorrentUpdate -> int {
    (v: TorrentUpdate) => v.timesCompletedDelta
  }

  function CompletedTotal(): TorrentRow -> int {
    (r: TorrentRow) => r.timesCompleted
  }

  lemma CompletedAddsUp()
    ensures AddsUp(TorrentPolicy(), CompletedAmount(), CompletedTotal(), U32_MAX)
  {
    var p := TorrentPolicy();
    assert forall u, v :: p.merge(u, v) == MergedTorrentUpdate(u, v);
    assert forall o, v :: p.apply(o, v) == AppliedTorrentUpdate(o, v);
  }

  /** What a call adds to the completed downloads of a torrent */
  function DeltaOfCall(ts: seq<Torrent>, how: How, id: TorrentId): nat {
    if how.Carried? && how.a.place < |ts| && ts[how.a.place].id == id
    then how.v.change.timesCompletedDelta else 0
  }

  function CompletionDelta(st: State, ev: TorrentEvent, id: TorrentId): nat {
    if ev.Called? then DeltaOfCall(st.torrents, ev.how, id) else 0
  }

  ghost function AllCompletionDeltas(states: seq<TorrentSystem>, evs: seq<TorrentEvent>, id: TorrentId): nat
    requires |states| == |evs| + 1
    decreases |evs|
  {
    if evs == [] then 0 else CompletionDelta(states[0].st, evs[0], id) + AllCompletionDeltas(states[1..], evs[1..], id)
  }

  lemma {:induction false} PassCompletesNothing(c: Config, ac: Time, ic: Time, ts: seq<Torrent>, id: TorrentId)
    ensures Sum(CompletedAmount(), ValuesFor(Passes.AllTorrentOps(c, ac, ic, ts), id)) == 0
  {
    if ts != [] {
      PassCompletesNothing(c, ac, ic, ts[1..], id);
      var first := Swarms.ReapOps(c, ac, ic, ts[0]);
      ValuesForConcat(first, Passes.AllTorrentOps(c, ac, ic, ts[1..]), id);
      SumConcat(CompletedAmount(), ValuesFor(first, id), ValuesFor(Passes.AllTorrentOps(c, ac, ic, ts[1..]), id));
      if |first| > 0 {
        SumOfOne(CompletedAmount(), first, id);
      }
    }
  }

  lemma SumOfOne(amount: TorrentUpdate -> int, t: Table<TorrentId, TorrentUpdate>, id: TorrentId)
    requires |t| == 1
    ensures Sum(amount, ValuesFor(t, id)) == if t[0].0 == id then amount(t[0].1) else 0
  {
    assert t[1..] == [];
    assert ValuesFor(t, id) == if t[0].0 == id then [t[0].1] else [];
    assert [t[0].1][1..] == [];
  }

  lemma CompletionsOfEvent(x: Setup, st: State, ev: TorrentEvent, id: TorrentId)
    ensures Sum(CompletedAmount(), ValuesFor(UpsertsOf(TorrentFeed(x), st, ev), id)) == CompletionDelta(st, ev, id)
  {
    match ev
    case Called(call, _, how) =>
      if |TorrentsOf(st, call, how)| > 0 {
        SumOfOne(CompletedAmount(), TorrentsOf(st, call, how), id);
      }
    case Passed(ac, ic) => PassCompletesNothing(x.c, ac, ic, st.torrents, id);
    case Flushed(_) =>
  }

  lemma {:induction false} CompletionsAreUpdates(x: Setup, states: seq<TorrentSystem>, evs: seq<TorrentEvent>, id: TorrentId)
    requires |states| == |evs| + 1
    ensures Sum(CompletedAmount(), AllUpdates(TorrentFeed(x), states, evs, id)) == AllCompletionDeltas(states, evs, id)
    decreases |evs|
  {
    if evs != [] {
      CompletionsAreUpdates(x, states[1..], evs[1..], id);
      CompletionsOfEvent(x, states[0].st, evs[0], id);
      SumConcat(CompletedAmount(), ValuesFor(UpsertsOf(TorrentFeed(x), states[0].st, evs[0]), id),
                AllUpdates(TorrentFeed(x), states[1..], evs[1..], id));
    }
  }

  lemma {:induction false} ReapedAllAt(c: Config, ac: Time, ic: Time, ts: seq<Torrent>, i: nat)
    requires i < |ts|
    ensures |Passes.ReapedAll(c, ac, ic, ts)| == |ts|
    ensures Passes.ReapedAll(c, ac, ic, ts)[i] == Swarms.ReapedTorrent(c, ac, ic, ts[i])
  {
    Passes.ReapedAllLength(c, ac, ic, ts);
    if i > 0 {
      ReapedAllAt(c, ac, ic, ts[1..], i - 1);
    }
  }

  /** All that an event does to the torrents */
  ghost predicate TorrentsFollow(c: Config, ts: seq<Torrent>, ev: TorrentEvent, ts': seq<Torrent>) {
    match ev
    case Called(_, _, how) =>
      if how.Carried? then
        && how.a.place < |ts|
        && ts' == ts[how.a.place := Swarms.AnnouncedTorrent(ts[how.a.place], how.v.change)]
      else ts' == ts
    case Passed(ac, ic) => ts' == Passes.ReapedAll(c, ac, ic, ts)
    case Flushed(_) => ts' == ts
  }

  lemma FollowsInTorrents(x: Setup, s: TorrentSystem, ev: TorrentEvent, s': TorrentSystem)
    requires Follows(x, TorrentFeed(x), s, ev, s')
    ensures TorrentsFollow(x.c, s.st.torrents, ev, s'.st.torrents)
  {
    match ev
    case Called(call, r, how) => OutcomeInTorrents(x, s.st, call, r, how, s'.st);
    case _ =>
  }

  /** An event keeps every torrent in its place, and adds the downloads it completes */
  lemma CompletionsInMemory(c: Config, st: State, ev: TorrentEvent, ts': seq<Torrent>, i: nat)
    requires TorrentsFollow(c, st.torrents, ev, ts') && Swarms.DistinctIds(st.torrents) && i < |st.torrents|
    ensures i < |ts'| && ts'[i].id == st.torrents[i].id
    ensures ts'[i].timesCompleted
            == Clamp(st.torrents[i].timesCompleted + CompletionDelta(st, ev, st.torrents[i].id), 0, U32_MAX)
  {
    match ev
    case Called(_, _, how) => CallInMemory(st.torrents, how, ts', i);
    case Passed(ac, ic) => ReapedAllAt(c, ac, ic, st.torrents, i);
    case Flushed(_) =>
  }

  lemma CallInMemory(ts: seq<Torrent>, how: How, ts': seq<Torrent>, i: nat)
    requires Swarms.DistinctIds(ts) && i < |ts|
    requires how.Carried? ==>
               && how.a.place < |ts|
               && ts' == ts[how.a.place := Swarms.AnnouncedTorrent(ts[how.a.place], how.v.change)]
    requires !how.Carried? ==> ts' == ts
    ensures i < |ts'| && ts'[i].id == ts[i].id
    ensures ts'[i].timesCompleted == Clamp(ts[i].timesCompleted + DeltaOfCall(ts, how, ts[i].id), 0, U32_MAX)
  {
    if how.Carried? {
      AnnouncedInMemory(ts, how.a.place, how.v.change, i);
    }
  }

  lemma AnnouncedInMemory(ts: seq<Torrent>, place: nat, ch: Change, i: nat)
    requires Swarms.DistinctIds(ts) && place < |ts| && i < |ts|
    ensures var ts' := ts[place := Swarms.AnnouncedTorrent(ts[place], ch)];
            && ts'[i].id == ts[i].id
            && ts'[i].timesCompleted
               == Clamp(ts[i].timesCompleted + (if ts[place].id == ts[i].id then ch.timesCompletedDelta else 0), 0, U32_MAX)
  {
    assert ts[place].id == ts[i].id <==> place == i;
  }

  lemma IdsStayDistinct(c: Config, st: State, ev: TorrentEvent, ts': seq<Torrent>)
    requires TorrentsFollow(c, st.torrents, ev, ts') && Swarms.DistinctIds(st.torrents)
    ensures Swarms.DistinctIds(ts')
  {
    if ev.Passed? {
      Passes.ReapedAllLength(c, ev.activeCutoff, ev.inactiveCutoff, st.torrents);
    }
    forall i, j | 0 <= i < j < |ts'| ensures ts'[i].id != ts'[j].id {
      CompletionsInMemory(c, st, ev, ts', i);
      CompletionsInMemory(c, st, ev, ts', j);
    }
  }

  lemma {:induction false} MemoryCompletions(x: Setup, states: seq<TorrentSystem>, evs: seq<TorrentEvent>, i: nat)
    requires IsRun(x, TorrentFeed(x), states, evs)
    requires Swarms.DistinctIds(states[0].st.torrents) && i < |states[0].st.torrents|
    requires var t := states[0].st.torrents[i];
             t.timesCompleted + AllCompletionDeltas(states, evs, t.id) <= U32_MAX
    ensures var t := states[0].st.torrents[i];
            && i < |states[|evs|].st.torrents| && states[|evs|].st.torrents[i].id == t.id
            && states[|evs|].st.torrents[i].timesCompleted == t.timesCompleted + AllCompletionDeltas(states, evs, t.id)
    decreases |evs|
  {
    if evs != [] {
      RunTail(x, TorrentFeed(x), states, evs);
      FollowsInTorrents(x, states[0], evs[0], states[1]);
      CompletionsInMemory(x.c, states[0].st, evs[0], states[1].st.torrents, i);
      IdsStayDistinct(x.c, states[0].st, evs[0], states[1].st.torrents);
      MemoryCompletions(x, states[1..], evs[1..], i);
    }
  }

  /** The torrent's count of completed downloads in memory is the stored one with all that is in flight and queued */
  ghost predicate CompletionsAgree(x: Setup, s: TorrentSystem, i: nat)
    requires i < |s.st.torrents|
  {
    var t := s.st.torrents[i];
    t.timesCompleted == Ledger(CompletedAmount(), CompletedTotal(), View(MachineOf(TorrentFeed(x), s), t.id))
  }

  // ---- Which announces complete a download ----

  /** The event is an accepted announce of a leech of the torrent that has nothing left */
  predicate IsCompletion(st: State, ev: TorrentEvent, id: TorrentId) {
    && ev.Called? && ev.how.Carried? && ev.how.a.place < |st.torrents| && st.torrents[ev.how.a.place].id == id
    && CompletesDownload(st.torrents[ev.how.a.place].peers, ev.how.a.userId, ev.call.request)
  }

  /** How many such announces there are */
  ghost function AllCompletions(states: seq<TorrentSystem>, evs: seq<TorrentEvent>, id: TorrentId): nat
    requires |states| == |evs| + 1
    decreases |evs|
  {
    if evs == [] then 0 else Bit(IsCompletion(states[0].st, evs[0], id)) + AllCompletions(states[1..], evs[1..], id)
  }

  /** An event that carries out a call changes the peers as the call calls for */
  ghost predicate PeersFollow(c: Config, st: State, ev: TorrentEvent) {
    ev.Called? && ev.how.Carried? ==>
      && ev.how.a.place < |st.torrents|
      && PeerChange(c, st.torrents[ev.how.a.place].peers, ev.how.a.userId, ev.call.request, HitOf(ev.how.a, ev.call))
         == Ok(ev.how.v.change)
  }

  lemma FollowsInPeers(x: Setup, s: TorrentSystem, ev: TorrentEvent, s': TorrentSystem)
    requires Follows(x, TorrentFeed(x), s, ev, s')
    ensures PeersFollow(x.c, s.st, ev)
  {
    if ev.Called? && ev.how.Carried? {
      OutcomeInPeers(x, s.st, ev.call, ev.r, ev.how, s'.st);
    }
  }

  lemma DeltaIsCompletion(c: Config, st: State, ev: TorrentEvent, id: TorrentId)
    requires PeersFollow(c, st, ev)
    ensures CompletionDelta(st, ev, id) == Bit(IsCompletion(st, ev, id))
  {
    if ev.Called? && ev.how.Carried? {
      var a := ev.how.a;
      CompletedIff(c, st.torrents[a.place].peers, a.userId, ev.call.request, HitOf(a, ev.call));
    }
  }

  lemma {:induction false} DeltasAreCompletions(x: Setup, states: seq<TorrentSystem>, evs: seq<TorrentEvent>, id: TorrentId)
    requires IsRun(x, TorrentFeed(x), states, evs)
    ensures AllCompletionDeltas(states, evs, id) == AllCompletions(states, evs, id)
    decreases |evs|
  {
    if evs != [] {
      RunTail(x, TorrentFeed(x), states, evs);
      FollowsInPeers(x, states[0], evs[0], states[1]);
      DeltaIsCompletion(x.c, states[0].st, evs[0], id);
      DeltasAreCompletions(x, states[1..], evs[1..], id);
    }
  }

  /** In every run of calls, passes and torrent flushes with arbitrary failures, the count of completed downloads in
      memory stays equal to stored + in flight + queued, and grows by one for each accepted announce in which a known
      leech has nothing left, while it fits 32 bits. */
  lemma CompletionsReachTheTorrent(x: Setup, states: seq<TorrentSystem>, evs: seq<TorrentEvent>, i: nat)
    requires IsRun(x, TorrentFeed(x), states, evs) && WellFormed(MachineOf(TorrentFeed(x), states[0]))
    requires Swarms.DistinctIds(states[0].st.torrents) && i < |states[0].st.torrents|
    requires CompletionsAgree(x, states[0], i)
    requires var t := states[0].st.torrents[i];
             && 0 <= AmountOf(CompletedTotal(), View(MachineOf(TorrentFeed(x), states[0]), t.id).stored)
             && t.timesCompleted + AllCompletions(states, evs, t.id) <= U32_MAX
    ensures i < |states[|evs|].st.torrents| && CompletionsAgree(x, states[|evs|], i)
    ensures states[|evs|].st.torrents[i].timesCompleted
            == states[0].st.torrents[i].timesCompleted + AllCompletions(states, evs, states[0].st.torrents[i].id)
  {
    var id := states[0].st.torrents[i].id;
    TorrentsAreFed(x);
    CompletedAddsUp();
    DeltasAreCompletions(x, states, evs, id);
    CompletionsAreUpdates(x, states, evs, id);
    MemoryCompletions(x, states, evs, i);
    AmountsReachTheDatabase(x, TorrentFeed(x), CompletedAmount(), CompletedTotal(), U32_MAX, states, evs, id);
  }
}
