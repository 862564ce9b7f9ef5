/** From calls to stored histories: over whole runs of the tracker, in which any batches of a flush may fail, the bytes
    that accepted announces count all get there, once. */
module HistoryLedgers {
  import opened MachineInts
  import opened Results
  import opened Tables
  import opened Updates
  import opened Errors
  import opened Peers
  import opened Admissions
  import opened Recording
  import opened Tracker
  import opened FlushProtocol
  import opened KeyRuns
  import opened QueueTraces
  import opened TrackerLedgers
  import opened Schedules
  import HistoryConditions

  type HistorySystem = System<HistoryKey, HistoryUpdate, HistoryRow>
  type HistoryEvent = TrackerEvent<HistoryKey, HistoryUpdate>

  /** The history update a call makes, if it is carried out */
  function HistoriesOf(c: Config, st: State, call: Call, how: How): Table<HistoryKey, HistoryUpdate> {
    if how.Carried? && how.a.place < |st.torrents| then
      [(HistoryKey(how.a.userId, st.torrents[how.a.place].id),
        HistoryUpdateOf(call.request, how.v.change, IsImmune(c, how.a.user, how.a.group), how.credit))]
    else []
  }

  function HistoryFeed(x: Setup): Feed<HistoryKey, HistoryUpdate, HistoryRow> {
    Feed(HistoryPolicy(), (st: State) => st.histories,
         (st: State, call: Call, how: How) => HistoriesOf(x.c, st, call, how), (st: State, ac: Time, ic: Time) => [])
  }

  lemma CallFeedsHistories(x: Setup, st: State, call: Call, r: Result<string, AnnounceError>, how: How, st': State)
    requires IsOutcome(x, st, call, r, how, st')
    ensures st'.histories == UpsertedAll(HistoryPolicy().merge, st.histories, HistoriesOf(x.c, st, call, how))
  {
    OutcomeInQueues(x, st, call, r, how, st');
    if how.Carried? {
      var (k, v) := HistoriesOf(x.c, st, call, how)[0];
      UpsertedOne(HistoryPolicy().merge, st.histories, k, v);
    }
  }

  lemma HistoriesAreFed(x: Setup)
    ensures IsFeed(x, HistoryFeed(x))
  {
    var f := HistoryFeed(x);
    forall st, call, r, how, st' | IsOutcome(x, st, call, r, how, st')
      ensures IsFed(f, st, f.ofCall(st, call, how), st')
    {
      CallFeedsHistories(x, st, call, r, how, st');
    }
  }

  /** The bytes an event counts in a column of a history */
  function BytesOf(col: HistoryColumn, st: State, ev: HistoryEvent, k: HistoryKey): nat {
    if ev.Called? && ev.how.Carried? && ev.how.a.place < |st.torrents|
       && k == HistoryKey(ev.how.a.userId, st.torrents[ev.how.a.place].id) then
      match col
      case ActualUploaded => ev.how.v.change.uploadedDelta
      case ActualDownloaded => ev.how.v.change.downloadedDelta
      case CreditedUploaded => ev.how.credit.uploadedDelta
      case CreditedDownloaded => ev.how.credit.downloadedDelta
    else 0
  }

  /** The bytes all calls of a run count */
  ghost function AllBytes(col: HistoryColumn, states: seq<HistorySystem>, evs: seq<HistoryEvent>, k: HistoryKey): nat
    requires |states| == |evs| + 1
    decreases |evs|
  {
    if evs == [] then 0 else BytesOf(col, states[0].st, evs[0], k) + AllBytes(col, states[1..], evs[1..], k)
  }

  lemma BytesOfEvent(x: Setup, col: HistoryColumn, st: State, ev: HistoryEvent, k: HistoryKey)
    ensures Sum(HistoryAmount(col), ValuesFor(UpsertsOf(HistoryFeed(x), st, ev), k)) == BytesOf(col, st, ev, k)
  {
    var upserts := UpsertsOf(HistoryFeed(x), st, ev);
    if |upserts| > 0 {
      assert upserts[1..] == [];
      assert ValuesFor(upserts, k) == if upserts[0].0 == k then [upserts[0].1] else [];
      assert [upserts[0].1][1..] == [];
    }
  }

  lemma {:induction false} BytesAreUpdates(
      x: Setup, col: HistoryColumn, states: seq<HistorySystem>, evs: seq<HistoryEvent>, k: HistoryKey)
    requires |states| == |evs| + 1
    ensures Sum(HistoryAmount(col), AllUpdates(HistoryFeed(x), states, evs, k)) == AllBytes(col, states, evs, k)
    decreases |evs|
  {
    if evs != [] {
      BytesAreUpdates(x, col, states[1..], evs[1..], k);
      BytesOfEvent(x, col, states[0].st, evs[0], k);
      SumConcat(HistoryAmount(col), ValuesFor(UpsertsOf(HistoryFeed(x), states[0].st, evs[0]), k),
                AllUpdates(HistoryFeed(x), states[1..], evs[1..], k));
    }
  }

  /** In every run of calls, passes and history flushes with arbitrary failures: for every user, torrent and column,
      stored + in flight + queued grows by exactly the bytes that the accepted announces count, while they fit. */
  lemma BytesReachTheHistory(
      x: Setup, col: HistoryColumn, states: seq<HistorySystem>, evs: seq<HistoryEvent>, k: HistoryKey)
    requires IsRun(x, HistoryFeed(x), states, evs) && WellFormed(MachineOf(HistoryFeed(x), states[0]))
    requires var start := View(MachineOf(HistoryFeed(x), states[0]), k);
             AmountOf(HistoryAmount(col), start.flight) + AmountOf(HistoryAmount(col), start.queued)
             + AllBytes(col, states, evs, k) <= U64_MAX
    ensures Ledger(HistoryAmount(col), HistoryTotal(col), View(MachineOf(HistoryFeed(x), states[|evs|]), k))
            == Ledger(HistoryAmount(col), HistoryTotal(col), View(MachineOf(HistoryFeed(x), states[0]), k))
               + AllBytes(col, states, evs, k)
  {
    HistoriesAreFed(x);
    HistoryColumnsAddUp(col);
    BytesAreUpdates(x, col, states, evs, k);
    AmountsReachTheDatabase(x, HistoryFeed(x), HistoryAmount(col), HistoryTotal(col), U64_MAX, states, evs, k);
  }

  /** In every run of calls, passes and history flushes in which no batch fails: once nothing of a history is queued or in
      flight, its row shows the client as it was at the latest accepted announce, and has a completion if that announce
      completed the download. */
  lemma LatestHistoryIsStored(x: Setup, states: seq<HistorySystem>, evs: seq<HistoryEvent>, k: HistoryKey)
    requires IsRun(x, HistoryFeed(x), states, evs) && WellFormed(MachineOf(HistoryFeed(x), states[0]))
    requires NoBatchFails(evs) && AllUpdates(HistoryFeed(x), states, evs, k) != []
    requires Drained(View(MachineOf(HistoryFeed(x), states[0]), k))
    requires Drained(View(MachineOf(HistoryFeed(x), states[|evs|]), k))
    ensures var h, end := AllUpdates(HistoryFeed(x), states, evs, k), View(MachineOf(HistoryFeed(x), states[|evs|]), k);
            && HistoryConditions.ShowsLast(end, h)
            && (Last(h).completedAt.Some? ==> HistoryConditions.HasCompletion(end))
  {
    HistoriesAreFed(x);
    var steps := RunIsQueueRun(x, HistoryFeed(x), states, evs, k);
    HistoryConditions.NoFailures(MachineOf(HistoryFeed(x), states[0]), steps, k);
    HistoryConditions.QueueShowsLast(MachineOf(HistoryFeed(x), states[0]), steps, k);
  }
}
