/** Runs of the tracker seen from one of its queues, with the batches of that queue in flight and its stored rows: they
    are runs of the flush protocol, and what arrives is what the accepted announces and the passes make. */
module TrackerLedgers {
  import opened Results
  import opened Tables
  import opened Updates
  import opened Errors
  import opened Admissions
  import opened Tracker
  import opened FlushProtocol
  import opened KeyRuns
  import opened Queues
  import opened QueueTraces

  datatype System<K, V, R> = System(st: State, flight: seq<Table<K, V>>, db: map<K, R>)

  /** One event of a run: a call, a pass of the reaper, or a step of the queue's flush */
  datatype TrackerEvent<K, V> =
    | Called(call: Call, r: Result<string, AnnounceError>, how: How)
    | Passed(activeCutoff: Time, inactiveCutoff: Time)
    | Flushed(step: Step<K, V>)

  /** One of the tracker's queues: its records, and what a call or a pass adds to them */
  datatype Feed<!K, !V, !R> = Feed(
    policy: Policy<V, R>, records: State -> Table<K, V>, ofCall: (State, Call, How) -> Table<K, V>,
    ofPass: (State, Time, Time) -> Table<K, V>)

  ghost function MachineOf<K, V, R>(f: Feed<K, V, R>, s: System<K, V, R>): Machine<K, V, R> {
    Machine(f.records(s.st), s.flight, s.db)
  }

  /** Other queues may be flushed at the same time */
  ghost predicate Follows<K(!new), V(!new), R(!new)>(
      x: Setup, f: Feed<K, V, R>, s: System<K, V, R>, ev: TrackerEvent<K, V>, s': System<K, V, R>) {
    match ev
    case Called(call, r, how) =>
      IsOutcome(x, s.st, call, r, how, s'.st) && s'.flight == s.flight && s'.db == s.db
    case Passed(ac, ic) => s' == s.(st := Reaped(x.c, ac, ic, s.st))
    case Flushed(step) =>
      && !step.Upsert? && Enabled(MachineOf(f, s), step)
      && MachineOf(f, s') == Next(f.policy, MachineOf(f, s), step)
      && s'.st.torrents == s.st.torrents && s'.st.users == s.st.users && s'.st.rates == s.st.rates
  }

  function UpsertsOf<K, V, R>(f: Feed<K, V, R>, st: State, ev: TrackerEvent<K, V>): Table<K, V> {
    match ev
    case Called(call, _, how) => f.ofCall(st, call, how)
    case Passed(ac, ic) => f.ofPass(st, ac, ic)
    case Flushed(_) => []
  }

  /** The queue gets exactly this */
  ghost predicate IsFed<K(!new), V(!new), R(!new)>(f: Feed<K, V, R>, st: State, upserts: Table<K, V>, st': State) {
    f.records(st') == UpsertedAll(f.policy.merge, f.records(st), upserts)
  }

  /** The feed says what calls and passes do to the queue */
  ghost predicate IsFeed<K(!new), V(!new), R(!new)>(x: Setup, f: Feed<K, V, R>) {
    && (forall st, call, r, how, st' :: IsOutcome(x, st, call, r, how, st') ==>
          IsFed(f, st, f.ofCall(st, call, how), st'))
    && (forall st, ac, ic :: IsFed(f, st, f.ofPass(st, ac, ic), Reaped(x.c, ac, ic, st)))
  }

  function StepsOf<K, V, R>(f: Feed<K, V, R>, st: State, ev: TrackerEvent<K, V>): seq<Step<K, V>> {
    match ev
    case Called(_, _, _) => ArrivalSteps(UpsertsOf(f, st, ev))
    case Passed(_, _) => ArrivalSteps(UpsertsOf(f, st, ev))
    case Flushed(step) => [step]
  }

  lemma EventIsMove<K(!new), V(!new), R(!new)>(
      x: Setup, f: Feed<K, V, R>, s: System<K, V, R>, ev: TrackerEvent<K, V>, s': System<K, V, R>)
    requires IsFeed(x, f) && Follows(x, f, s, ev, s')
    ensures IsMove(f.policy, MachineOf(f, s), StepsOf(f, s.st, ev), MachineOf(f, s'))
  {
    match ev
    case Flushed(step) =>
      RunCons(f.policy, MachineOf(f, s), step, []);
      assert [step] + [] == [step];
    case _ =>
      assert IsFed(f, s.st, UpsertsOf(f, s.st, ev), s'.st);
      ArrivingIsARun(f.policy, MachineOf(f, s), UpsertsOf(f, s.st, ev));
  }

  ghost predicate IsRun<K(!new), V(!new), R(!new)>(
      x: Setup, f: Feed<K, V, R>, states: seq<System<K, V, R>>, evs: seq<TrackerEvent<K, V>>) {
    |states| == |evs| + 1 && forall i :: 0 <= i < |evs| ==> Follows(x, f, states[i], evs[i], states[i + 1])
  }

  lemma RunTail<K(!new), V(!new), R(!new)>(
      x: Setup, f: Feed<K, V, R>, states: seq<System<K, V, R>>, evs: seq<TrackerEvent<K, V>>)
    requires IsRun(x, f, states, evs) && evs != []
    ensures Follows(x, f, states[0], evs[0], states[1])
    ensures IsRun(x, f, states[1..], evs[1..])
  {
    forall i | 0 <= i < |evs[1..]| ensures Follows(x, f, states[1..][i], evs[1..][i], states[1..][i + 1]) {
      assert Follows(x, f, states[i + 1], evs[i + 1], states[i + 2]);
    }
  }

  /** The updates for a key that the calls and passes of a run make, oldest first */
  ghost function AllUpdates<K, V, R>(
      f: Feed<K, V, R>, states: seq<System<K, V, R>>, evs: seq<TrackerEvent<K, V>>, k: K): seq<V>
    requires |states| == |evs| + 1
    decreases |evs|
  {
    if evs == [] then []
    else ValuesFor(UpsertsOf(f, states[0].st, evs[0]), k) + AllUpdates(f, states[1..], evs[1..], k)
  }

  /** All batches of the queue reach the database */
  ghost predicate NoBatchFails<K, V>(evs: seq<TrackerEvent<K, V>>) {
    forall i :: 0 <= i < |evs| && evs[i].Flushed? ==> !evs[i].step.Requeue?
  }

  ghost predicate NoneRequeued<K, V>(steps: seq<Step<K, V>>) {
    forall i :: 0 <= i < |steps| ==> !steps[i].Requeue?
  }

  lemma {:induction false} ArrivalsRequeueNothing<K, V>(t: Table<K, V>)
    ensures NoneRequeued(ArrivalSteps(t))
    decreases |t|
  {
    if |t| > 0 {
      ArrivalsRequeueNothing(t[1..]);
    }
  }

  lemma EventRequeuesNothing<K, V, R>(f: Feed<K, V, R>, st: State, ev: TrackerEvent<K, V>)
    requires ev.Flushed? ==> !ev.step.Requeue?
    ensures NoneRequeued(StepsOf(f, st, ev))
  {
    ArrivalsRequeueNothing(UpsertsOf(f, st, ev));
  }

  /** A run of the tracker is a run of the queue, in which exactly these updates arrive, and batches go back only in
      flushes where one fails */
  lemma {:induction false} RunIsQueueRun<K(!new), V(!new), R(!new)>(
      x: Setup, f: Feed<K, V, R>, states: seq<System<K, V, R>>, evs: seq<TrackerEvent<K, V>>, k: K)
    returns (steps: seq<Step<K, V>>)
    requires IsFeed(x, f) && IsRun(x, f, states, evs)
    ensures Legal(f.policy, MachineOf(f, states[0]), steps)
    ensures Run(f.policy, MachineOf(f, states[0]), steps) == MachineOf(f, states[|evs|])
    ensures UpdatesOf(steps, k) == AllUpdates(f, states, evs, k)
    ensures NoBatchFails(evs) ==> NoneRequeued(steps)
    decreases |evs|
  {
    steps := [];
    if evs != [] {
      RunTail(x, f, states, evs);
      EventIsMove(x, f, states[0], evs[0], states[1]);
      var first := StepsOf(f, states[0].st, evs[0]);
      var rest := RunIsQueueRun(x, f, states[1..], evs[1..], k);
      RunConcat(f.policy, MachineOf(f, states[0]), first, rest);
      UpdatesOfConcat(first, rest, k);
      UpdatesOfEvent(x, f, states[0], evs[0], states[1], k);
      if NoBatchFails(evs) {
        EventRequeuesNothing(f, states[0].st, evs[0]);
        assert NoBatchFails(evs[1..]);
      }
      steps := first + rest;
    }
  }

  lemma UpdatesOfEvent<K(!new), V(!new), R(!new)>(
      x: Setup, f: Feed<K, V, R>, s: System<K, V, R>, ev: TrackerEvent<K, V>, s': System<K, V, R>, k: K)
    requires Follows(x, f, s, ev, s')
    ensures UpdatesOf(StepsOf(f, s.st, ev), k) == ValuesFor(UpsertsOf(f, s.st, ev), k)
  {
    match ev
    case Flushed(step) => assert [step][1..] == [];
    case _ => UpdatesOfArrivals(UpsertsOf(f, s.st, ev), k);
  }

  /** In every run of calls, passes and flush steps with arbitrary failures, stored + in flight + queued of every key
      grows by exactly the amounts of the updates that were made, while they fit. */
  lemma AmountsReachTheDatabase<K(!new), V(!new), R(!new)>(
      x: Setup, f: Feed<K, V, R>, amount: V -> int, total: R -> int, cap: int, states: seq<System<K, V, R>>,
      evs: seq<TrackerEvent<K, V>>, k: K)
    requires IsFeed(x, f) && IsRun(x, f, states, evs) && WellFormed(MachineOf(f, states[0]))
    requires AddsUp(f.policy, amount, total, cap)
    requires var start := View(MachineOf(f, states[0]), k);
             AmountOf(amount, start.flight) + AmountOf(amount, start.queued)
             + Sum(amount, AllUpdates(f, states, evs, k)) <= cap
    ensures Ledger(amount, total, View(MachineOf(f, states[|evs|]), k))
            == Ledger(amount, total, View(MachineOf(f, states[0]), k)) + Sum(amount, AllUpdates(f, states, evs, k))
  {
    var steps := RunIsQueueRun(x, f, states, evs, k);
    TransfersAreConserved(f.policy, amount, total, cap, MachineOf(f, states[0]), steps, k);
  }
}
