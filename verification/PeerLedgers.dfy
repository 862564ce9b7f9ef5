/** From calls to stored peers: over whole runs of the tracker, in which any batches of a flush may fail, every stored
    peer converges to what its latest accepted announce left in memory. */
module PeerLedgers {
  import opened Results
  import opened Tables
  import opened Updates
  import opened Errors
  import opened Admissions
  import opened Recording
  import opened Tracker
  import opened FlushProtocol
  import opened KeyRuns
  import opened TrackerLedgers
  import opened Schedules
  import NewestConditions

  type PeerSystem = System<PeerKey, PeerUpdate, PeerUpdate>
  type PeerEvent = TrackerEvent<PeerKey, PeerUpdate>

  /** The peer update a call makes, if it is carried out */
  function PeersOf(st: State, call: Call, how: How): Table<PeerKey, PeerUpdate> {
    if how.Carried? && how.a.place < |st.torrents| then
      [(PeerKeyOf(how.a.userId, st.torrents[how.a.place].id, call.request), PeerUpdateOf(call.request, how.v.change))]
    else []
  }

  function PeerFeed(): Feed<PeerKey, PeerUpdate, PeerUpdate> {
    Feed(PeerPolicy(), (st: State) => st.peers, (st: State, call: Call, how: How) => PeersOf(st, call, how),
         (st: State, ac: Time, ic: Time) => [])
  }

  lemma CallFeedsPeers(x: Setup, st: State, call: Call, r: Result<string, AnnounceError>, how: How, st': State)
    requires IsOutcome(x, st, call, r, how, st')
    ensures st'.peers == UpsertedAll(PeerPolicy().merge, st.peers, PeersOf(st, call, how))
  {
    OutcomeInQueues(x, st, call, r, how, st');
    if how.Carried? {
      var (k, v) := PeersOf(st, call, how)[0];
      UpsertedOne(PeerPolicy().merge, st.peers, k, v);
    }
  }

  lemma PeersAreFed(x: Setup)
    ensures IsFeed(x, PeerFeed())
  {
    var f := PeerFeed();
    forall st, call, r, how, st' | IsOutcome(x, st, call, r, how, st')
      ensures IsFed(f, st, f.ofCall(st, call, how), st')
    {
      CallFeedsPeers(x, st, call, r, how, st');
    }
  }

  /** In every run of calls, passes and peer flushes with arbitrary failures: if a peer's accepted announces come at
      increasing times, its stored row does not go back in time, and once nothing of it is queued or in flight the
      row is the update of its latest accepted announce, with the creation time it first got. */
  lemma StoredPeersConverge(x: Setup, states: seq<PeerSystem>, evs: seq<PeerEvent>, k: PeerKey, before: Time)
    requires IsRun(x, PeerFeed(), states, evs) && WellFormed(MachineOf(PeerFeed(), states[0]))
    requires View(MachineOf(PeerFeed(), states[0]), k).queued.None?
    requires View(MachineOf(PeerFeed(), states[0]), k).flight.None?
    requires FreshAnnounces(View(MachineOf(PeerFeed(), states[0]), k).stored, AllUpdates(PeerFeed(), states, evs, k), before)
    ensures var start := View(MachineOf(PeerFeed(), states[0]), k);
            var end := View(MachineOf(PeerFeed(), states[|evs|]), k);
            && StoredTime(start.stored, before) <= StoredTime(end.stored, before)
            && (end.queued.None? && end.flight.None? ==>
                  end.stored == RowAfter(start.stored, AllUpdates(PeerFeed(), states, evs, k)))
  {
    PeersAreFed(x);
    var steps := RunIsQueueRun(x, PeerFeed(), states, evs, k);
    assert [] + UpdatesOf(steps, k) == UpdatesOf(steps, k);
    NewestWins(MachineOf(PeerFeed(), states[0]), [], steps, k, before);
  }

  /** The same for the announce alone, whatever the times of the others: it is enough that the latest accepted announce
      is newer than all others that differ from it. */
  lemma LatestAnnounceIsStored(x: Setup, states: seq<PeerSystem>, evs: seq<PeerEvent>, k: PeerKey)
    requires IsRun(x, PeerFeed(), states, evs) && WellFormed(MachineOf(PeerFeed(), states[0]))
    requires Drained(View(MachineOf(PeerFeed(), states[0]), k))
    requires Drained(View(MachineOf(PeerFeed(), states[|evs|]), k))
    requires AllUpdates(PeerFeed(), states, evs, k) != []
    requires NewestConditions.LastIsNewest(AllUpdates(PeerFeed(), states, evs, k))
    ensures NewestConditions.StoresLast(View(MachineOf(PeerFeed(), states[|evs|]), k),
                                        AllUpdates(PeerFeed(), states, evs, k))
  {
    PeersAreFed(x);
    var steps := RunIsQueueRun(x, PeerFeed(), states, evs, k);
    NewestConditions.QueueStoresNewest(MachineOf(PeerFeed(), states[0]), steps, k);
  }
}
