/** What the stored history of a user on a torrent keeps of the user's announces besides the bytes: the exact conditions
    under which it ends with the snapshot of the last announce, records the completion of the download, loses its
    immunity, and has the right times.

    A merge takes the snapshot and the completion of whatever is merged last, be it a batch that comes back behind newer
    updates. So an announce made after the completing one hides the completion if both meet in the queue, and a failed
    batch can put back an older snapshot. */
module HistoryConditions {
  import opened MachineInts
  import opened Results
  import opened FlushProtocol
  import opened Updates
  import opened KeyRuns
  import opened Schedules
  import opened ColumnConditions

  type HistoryState = KeyState<HistoryUpdate, HistoryRow>

  /** The columns that show the state of the client when it announced */
  datatype Snapshot = Snapshot(agent: string, isActive: bool, isSeeder: bool, uploaded: int, downloaded: int)

  function SnapshotOf(): HistoryUpdate -> Snapshot {
    (v: HistoryUpdate) => Snapshot(v.agent, v.isActive, v.isSeeder, v.uploaded, v.downloaded)
  }

  function StoredSnapshot(): HistoryRow -> Snapshot {
    (r: HistoryRow) => Snapshot(r.agent, r.active, r.seeder, r.clientUploaded, r.clientDownloaded)
  }

  function CompletionOf(): HistoryUpdate -> Option<Time> {
    (v: HistoryUpdate) => v.completedAt
  }

  function StoredCompletion(): HistoryRow -> Option<Time> {
    (r: HistoryRow) => r.completedAt
  }

  function ImmunityOf(): HistoryUpdate -> bool {
    (v: HistoryUpdate) => v.isImmune
  }

  function StoredImmunity(): HistoryRow -> bool {
    (r: HistoryRow) => r.immune
  }

  function UpdateTimeOf(): HistoryUpdate -> Time {
    (v: HistoryUpdate) => v.updatedAt
  }

  function StoredUpdateTime(): HistoryRow -> Time {
    (r: HistoryRow) => r.updatedAt
  }

  function CreationOf(): HistoryUpdate -> Time {
    (v: HistoryUpdate) => v.createdAt
  }

  function StoredCreation(): HistoryRow -> Time {
    (r: HistoryRow) => r.createdAt
  }

  lemma SnapshotIsOverwritten()
    ensures IsOverwritten(HistoryPolicy(), SnapshotOf(), StoredSnapshot())
  {
    var p := HistoryPolicy();
    forall u, v ensures SnapshotOf()(p.merge(u, v)) == SnapshotOf()(v) {
      assert p.merge(u, v) == MergedHistoryUpdate(u, v);
    }
    forall r, v ensures StoredSnapshot()(p.apply(r, v)) == SnapshotOf()(v) {
      assert p.apply(r, v) == AppliedHistoryUpdate(r, v);
    }
  }

  lemma CompletionIsRecordedOnce()
    ensures IsRecordedOnce(HistoryPolicy(), CompletionOf(), StoredCompletion())
  {
    var p := HistoryPolicy();
    forall u, v ensures CompletionOf()(p.merge(u, v)) == CompletionOf()(v) {
      assert p.merge(u, v) == MergedHistoryUpdate(u, v);
    }
    forall r, v
      ensures StoredCompletion()(p.apply(r, v))
              == if r.Some? && StoredCompletion()(r.value).Some? then StoredCompletion()(r.value) else CompletionOf()(v)
    {
      assert p.apply(r, v) == AppliedHistoryUpdate(r, v);
    }
  }

  lemma ImmunityIsLatched()
    ensures IsLatched(HistoryPolicy(), ImmunityOf(), StoredImmunity())
  {
    var p := HistoryPolicy();
    forall u, v ensures ImmunityOf()(p.merge(u, v)) == ImmunityOf()(u) {
      assert p.merge(u, v) == MergedHistoryUpdate(u, v);
    }
    forall r, v
      ensures StoredImmunity()(p.apply(r, v)) == ((r.Some? ==> StoredImmunity()(r.value)) && ImmunityOf()(v))
    {
      assert p.apply(r, v) == AppliedHistoryUpdate(r, v);
    }
  }

  lemma HistoryTimes()
    ensures IsNewestTime(HistoryPolicy(), UpdateTimeOf(), StoredUpdateTime())
    ensures IsFirstTime(HistoryPolicy(), CreationOf(), StoredCreation())
  {
    var p := HistoryPolicy();
    forall u, v
      ensures UpdateTimeOf()(p.merge(u, v)) == Max(u.updatedAt, v.updatedAt)
      ensures CreationOf()(p.merge(u, v)) == Min(u.createdAt, v.createdAt)
    {
      assert p.merge(u, v) == MergedHistoryUpdate(u, v);
    }
    forall r, v
      ensures StoredUpdateTime()(p.apply(r, v)) == v.updatedAt
      ensures StoredCreation()(p.apply(r, v)) == if r.Some? then r.value.createdAt else v.createdAt
    {
      assert p.apply(r, v) == AppliedHistoryUpdate(r, v);
    }
  }

  // ---- The snapshot ----

  ghost predicate IsDraining(s: HistoryState, h: seq<HistoryUpdate>, es: seq<KeyStep<HistoryUpdate>>) {
    IsDrainingRun(HistoryPolicy(), s, h, es)
  }

  ghost predicate ShowsLast(s: HistoryState, h: seq<HistoryUpdate>)
    requires h != []
  {
    Stores(StoredSnapshot(), s, SnapshotOf()(Last(h)))
  }

  /** Every run that drains the updates of a history stores the snapshot of the last one, exactly if all of them have the
      same. */
  lemma LastSnapshotIff(s: HistoryState, h: seq<HistoryUpdate>)
    requires Drained(s) && h != []
    ensures (forall es :: IsDraining(s, h, es) ==> ShowsLast(KeyRun(HistoryPolicy(), s, es), h))
            <==> AllHave(SnapshotOf(), h, SnapshotOf()(Last(h)))
  {
    SnapshotIsOverwritten();
    LastValueIff(HistoryPolicy(), SnapshotOf(), StoredSnapshot(), s, h);
  }

  /** Whatever they are, it stores that of the last one if no batch comes back behind a newer update. */
  lemma LastSnapshotInOrder(s: HistoryState, h: seq<HistoryUpdate>, es: seq<KeyStep<HistoryUpdate>>)
    requires h != [] && IsDraining(s, h, es) && NoneReturnsBehind(HistoryPolicy(), s, es)
    ensures ShowsLast(KeyRun(HistoryPolicy(), s, es), h)
  {
    SnapshotIsOverwritten();
    LastValueInOrder(HistoryPolicy(), SnapshotOf(), StoredSnapshot(), s, h, es);
  }

  /** The older of two updates comes back behind the newer: the row shows the older, under the time of the newer. */
  lemma StaleSnapshot(s: HistoryState, u: HistoryUpdate, v: HistoryUpdate)
    requires Drained(s) && u.updatedAt <= v.updatedAt
    ensures var es := [Arrive(u), Depart, Arrive(v), Return, Depart, Land];
            && IsDraining(s, [u, v], es)
            && Stores(StoredSnapshot(), KeyRun(HistoryPolicy(), s, es), SnapshotOf()(u))
            && Stores(StoredUpdateTime(), KeyRun(HistoryPolicy(), s, es), v.updatedAt)
  {
    var p, h := HistoryPolicy(), [u, v];
    FailingRun(p, s, h, 0);
    assert h[..1] == [u] && h[1..] == [v] && [u][1..] == [] && [v][1..] == [];
    assert Arriving([u]) == [Arrive(u)] && Arriving([v]) == [Arrive(v)];
    assert Failing(h, 0) == [Arrive(u), Depart, Arrive(v), Return, Depart, Land];
    assert p.merge(v, u) == MergedHistoryUpdate(v, u);
    assert p.apply(s.stored, p.merge(v, u)) == AppliedHistoryUpdate(s.stored, p.merge(v, u));
  }

  // ---- The completion ----

  ghost predicate HasCompletion(s: HistoryState) {
    Records(StoredCompletion(), s)
  }

  /** From a row without a completion, every run that drains the updates records one exactly if all of them carry one. */
  lemma CompletionIff(s: HistoryState, h: seq<HistoryUpdate>)
    requires Drained(s) && !HasCompletion(s) && h != []
    ensures (forall es :: IsDraining(s, h, es) ==> HasCompletion(KeyRun(HistoryPolicy(), s, es)))
            <==> AllGiven(CompletionOf(), h)
  {
    CompletionIsRecordedOnce();
    RecordedIff(HistoryPolicy(), CompletionOf(), StoredCompletion(), s, h);
  }

  /** Every run in which no batch comes back behind a newer update, exactly if the last one does; and so every run in
      which none comes back at all. */
  lemma CompletionInOrderIff(s: HistoryState, h: seq<HistoryUpdate>)
    requires Drained(s) && !HasCompletion(s) && h != []
    ensures (forall es :: IsDraining(s, h, es) && NoneReturnsBehind(HistoryPolicy(), s, es) ==>
               HasCompletion(KeyRun(HistoryPolicy(), s, es)))
            <==> Last(h).completedAt.Some?
    ensures (forall es :: IsDraining(s, h, es) && Return !in es ==> HasCompletion(KeyRun(HistoryPolicy(), s, es)))
            <==> Last(h).completedAt.Some?
  {
    CompletionIsRecordedOnce();
    RecordedInOrderIff(HistoryPolicy(), CompletionOf(), StoredCompletion(), s, h);
  }

  /** A completion that the row has stays there, whatever comes */
  lemma CompletionStays(s: HistoryState, es: seq<KeyStep<HistoryUpdate>>)
    requires KeyLegal(HistoryPolicy(), s, es) && HasCompletion(s)
    ensures Stores(StoredCompletion(), KeyRun(HistoryPolicy(), s, es), s.stored.value.completedAt)
  {
    CompletionIsRecordedOnce();
    RecordedForGood(HistoryPolicy(), CompletionOf(), StoredCompletion(), s, es);
  }

  /** A completing announce and a plain one meet in the queue: the completion is lost, although nothing fails. */
  lemma LostCompletion(s: HistoryState, completing: HistoryUpdate, plain: HistoryUpdate)
    requires Drained(s) && !HasCompletion(s) && completing.completedAt.Some? && plain.completedAt.None?
    ensures var es := [Arrive(completing), Arrive(plain), Depart, Land];
            IsDraining(s, [completing, plain], es) && !HasCompletion(KeyRun(HistoryPolicy(), s, es))
  {
    var p, h := HistoryPolicy(), [completing, plain];
    LazyRun(p, s, h);
    assert h[1..] == [plain] && [plain][1..] == [];
    assert Arriving([plain]) == [Arrive(plain)];
    assert Lazy(h) == [Arrive(completing), Arrive(plain), Depart, Land];
    CompletionIsRecordedOnce();
    FieldPooled(p.merge, CompletionOf(), h);
  }

  // ---- The immunity ----

  /** From a row that is immune, or none, every run that drains the updates takes the immunity away exactly if none of
      them is immune, and every one in which no batch comes back behind a newer update exactly if the first is not. */
  lemma ImmunityLostIff(s: HistoryState, h: seq<HistoryUpdate>)
    requires Drained(s) && !IsLost(StoredImmunity(), s) && h != []
    ensures (forall es :: IsDraining(s, h, es) ==> IsLost(StoredImmunity(), KeyRun(HistoryPolicy(), s, es)))
            <==> NoneHas(ImmunityOf(), h)
    ensures (forall es :: IsDraining(s, h, es) && NoneReturnsBehind(HistoryPolicy(), s, es) ==>
               IsLost(StoredImmunity(), KeyRun(HistoryPolicy(), s, es)))
            <==> !h[0].isImmune
  {
    ImmunityIsLatched();
    LostIff(HistoryPolicy(), ImmunityOf(), StoredImmunity(), s, h);
  }

  // ---- The times ----

  ghost predicate RowNeverGoesBack(s: HistoryState, es: seq<KeyStep<HistoryUpdate>>)
    requires KeyLegal(HistoryPolicy(), s, es)
  {
    NeverGoesBack(HistoryPolicy(), UpdateTimeOf(), StoredUpdateTime(), s, es)
  }

  /** No run that takes in the updates of a history ever puts its row back in time exactly if their times, from the row
      on, never fall. */
  lemma HistoryTimeNeverFallsIff(s: HistoryState, h: seq<HistoryUpdate>)
    requires Drained(s)
    ensures (forall es :: KeyLegal(HistoryPolicy(), s, es) && Arrivals(es) == h ==> RowNeverGoesBack(s, es))
            <==> TimesNeverFall(UpdateTimeOf(), TimeOf(StoredUpdateTime(), s.stored), h)
  {
    HistoryTimes();
    NeverGoesBackIff(HistoryPolicy(), UpdateTimeOf(), StoredUpdateTime(), s, h);
    assert forall es :: KeyLegal(HistoryPolicy(), s, es) ==>
        (RowNeverGoesBack(s, es) <==> NeverGoesBack(HistoryPolicy(), UpdateTimeOf(), StoredUpdateTime(), s, es));
  }

  /** Every run that drains the updates of a new history stores the creation time of the first exactly if none is
      earlier; and a row keeps the one it has. */
  lemma HistoryCreationIff(s: HistoryState, h: seq<HistoryUpdate>)
    requires IsNothing(s) && h != []
    ensures (forall es :: IsDraining(s, h, es) ==>
               Stores(StoredCreation(), KeyRun(HistoryPolicy(), s, es), h[0].createdAt))
            <==> NoneBefore(CreationOf(), h, h[0].createdAt)
  {
    HistoryTimes();
    FirstTimeIff(HistoryPolicy(), CreationOf(), StoredCreation(), s, h);
  }

  lemma HistoryCreationStays(s: HistoryState, es: seq<KeyStep<HistoryUpdate>>)
    requires KeyLegal(HistoryPolicy(), s, es) && s.stored.Some?
    ensures Stores(StoredCreation(), KeyRun(HistoryPolicy(), s, es), s.stored.value.createdAt)
  {
    HistoryTimes();
    FirstTimeForGood(HistoryPolicy(), CreationOf(), StoredCreation(), s, es);
  }

  // ---- The same for the queue as a whole ----

  /** No batch that fails holds the key while something newer of it is queued */
  ghost predicate NoneFailsBehind<K(!new)>(
      m: Machine<K, HistoryUpdate, HistoryRow>, steps: seq<Step<K, HistoryUpdate>>, k: K)
    requires WellFormed(m) && Legal(HistoryPolicy(), m, steps)
  {
    && KeyLegal(HistoryPolicy(), View(m, k), ViewRun(HistoryPolicy(), m, steps, k))
    && NoneReturnsBehind(HistoryPolicy(), View(m, k), ViewRun(HistoryPolicy(), m, steps, k))
  }

  lemma {:induction false} NoFailures<K(!new)>(
      m: Machine<K, HistoryUpdate, HistoryRow>, steps: seq<Step<K, HistoryUpdate>>, k: K)
    requires WellFormed(m) && Legal(HistoryPolicy(), m, steps)
    requires forall i :: 0 <= i < |steps| ==> !steps[i].Requeue?
    ensures NoneFailsBehind(m, steps, k)
    decreases |steps|
  {
    if steps != [] {
      var p, m' := HistoryPolicy(), Next(HistoryPolicy(), m, steps[0]);
      StepProjects(p, m, steps[0], k);
      NoFailures(m', steps[1..], k);
      ConsRun(p, View(m, k), ViewStep(m, steps[0], k), ViewRun(p, m', steps[1..], k));
    }
  }

  /** For every history, once drained: if no failed batch went back behind a newer update of it, the row shows the last
      snapshot, and has a completion if the last update carries one. */
  lemma QueueShowsLast<K(!new)>(
      m: Machine<K, HistoryUpdate, HistoryRow>, steps: seq<Step<K, HistoryUpdate>>, k: K)
    requires WellFormed(m) && Legal(HistoryPolicy(), m, steps) && NoneFailsBehind(m, steps, k)
    requires Drained(View(m, k)) && Drained(View(Run(HistoryPolicy(), m, steps), k)) && UpdatesOf(steps, k) != []
    ensures ShowsLast(View(Run(HistoryPolicy(), m, steps), k), UpdatesOf(steps, k))
    ensures Last(UpdatesOf(steps, k)).completedAt.Some? ==> HasCompletion(View(Run(HistoryPolicy(), m, steps), k))
  {
    var p, es, h := HistoryPolicy(), ViewRun(HistoryPolicy(), m, steps, k), UpdatesOf(steps, k);
    RunProjects(p, m, steps, k);
    LastSnapshotInOrder(View(m, k), h, es);
    if HasCompletion(View(m, k)) {
      CompletionStays(View(m, k), es);
    } else {
      CompletionInOrderIff(View(m, k), h);
      assert IsDraining(View(m, k), h, es);
    }
  }

  /** If the updates do not all have one snapshot, some run of a queue, with one failing batch, stores another than the
      last. */
  lemma QueueMayShowAnother<K(!new)>(db: map<K, HistoryRow>, k: K, h: seq<HistoryUpdate>)
    returns (steps: seq<Step<K, HistoryUpdate>>)
    requires h != [] && !AllHave(SnapshotOf(), h, SnapshotOf()(Last(h)))
    ensures var m := Machine([], [], db);
            && Legal(HistoryPolicy(), m, steps) && UpdatesOf(steps, k) == h
            && Drained(View(Run(HistoryPolicy(), m, steps), k))
            && !ShowsLast(View(Run(HistoryPolicy(), m, steps), k), h)
  {
    var m: Machine<K, HistoryUpdate, HistoryRow> := Machine([], [], db);
    var p := HistoryPolicy();
    SoloView(m, k);
    SnapshotIsOverwritten();
    var i :| 0 <= i < |h| && SnapshotOf()(h[i]) != SnapshotOf()(Last(h));
    FailingStores(p, SnapshotOf(), StoredSnapshot(), View(m, k), h, i);
    SchedulesMove(h[..i + 1]);
    SchedulesMove(h[i + 1..]);
    steps := SoloRun(p, m, k, Failing(h, i));
  }

  /** If the last update of a history carries no completion, some run of a queue, with no failing batch, records none,
      whatever the others carry. */
  lemma QueueMayLoseCompletion<K(!new)>(db: map<K, HistoryRow>, k: K, h: seq<HistoryUpdate>)
    returns (steps: seq<Step<K, HistoryUpdate>>)
    requires h != [] && Last(h).completedAt.None? && !HasCompletion(KeyState(None, None, RowOf(db, k)))
    ensures var m := Machine([], [], db);
            && Legal(HistoryPolicy(), m, steps) && UpdatesOf(steps, k) == h
            && Return !in ViewRun(HistoryPolicy(), m, steps, k)
            && Drained(View(Run(HistoryPolicy(), m, steps), k)) && !HasCompletion(View(Run(HistoryPolicy(), m, steps), k))
  {
    var m: Machine<K, HistoryUpdate, HistoryRow> := Machine([], [], db);
    var p := HistoryPolicy();
    SoloView(m, k);
    CompletionIsRecordedOnce();
    LazyRun(p, View(m, k), h);
    FieldPooled(p.merge, CompletionOf(), h);
    SchedulesMove(h);
    steps := SoloRun(p, m, k, Lazy(h));
  }
}
