/** The write-behind protocol of one update queue: updates are merged into the queue by key, a prefix is
    taken in batches, and each batch either reaches the database or is merged back into the queue.

    `Machine` is the whole queue; `KeyState` is what one key sees of it. `StepProjects` shows that every
    step of the machine is one of five steps for each key, so that claims over whole runs are proved once,
    for a single key. */
module FlushProtocol {
  import opened Results
  import opened Tables

  /** How a record absorbs a newer update, and what an upsert makes of the stored row */
  datatype Policy<!V, !R> = Policy(merge: (V, V) -> V, apply: (Option<R>, V) -> R)

  /** The `Queue::upsert` of one update */
  function Upserted<K(==), V>(merge: (V, V) -> V, q: Table<K, V>, k: K, v: V): Table<K, V> {
    match Lookup(q, k)
    case Some(u) => Put(q, k, merge(u, v))
    case None => Put(q, k, v)
  }

  function UpsertedAll<K(==), V>(merge: (V, V) -> V, q: Table<K, V>, batch: Table<K, V>): Table<K, V>
    decreases |batch|
  {
    if |batch| == 0 then q
    else UpsertedAll(merge, Upserted(merge, q, batch[0].0, batch[0].1), batch[1..])
  }

  lemma UpsertedOne<K, V>(merge: (V, V) -> V, q: Table<K, V>, k: K, v: V)
    ensures UpsertedAll(merge, q, [(k, v)]) == Upserted(merge, q, k, v)
  {
    assert [(k, v)][1..] == [];
  }

  function RowOf<K, R>(db: map<K, R>, k: K): Option<R> {
    if k in db then Some(db[k]) else None
  }

  /** `INSERT … ON DUPLICATE KEY UPDATE` of a batch */
  function Applied<K, V, R>(apply: (Option<R>, V) -> R, db: map<K, R>, batch: Table<K, V>): map<K, R>
    decreases |batch|
  {
    if |batch| == 0 then db
    else Applied(apply, db[batch[0].0 := apply(RowOf(db, batch[0].0), batch[0].1)], batch[1..])
  }

  /** `flight` holds the batches taken by the running flush whose outcome is still open */
  datatype Machine<K, V, R> = Machine(queue: Table<K, V>, flight: seq<Table<K, V>>, db: map<K, R>)

  datatype Step<K, V> =
    | Upsert(key: K, update: V)
    | Take(n: nat, batches: seq<Table<K, V>>)
    | Commit(i: nat)
    | Requeue(i: nat)

  ghost predicate WellFormed<K, V, R>(s: Machine<K, V, R>) {
    Distinct(s.queue) && Distinct(Flatten(s.flight))
  }

  /** One flusher: a flush starts only when the previous one has settled all its batches, and its batches
      are made of the first `n` records of the queue. */
  ghost predicate Enabled<K, V, R>(s: Machine<K, V, R>, step: Step<K, V>) {
    match step
    case Upsert(_, _) => true
    case Take(n, batches) =>
      s.flight == [] && n <= |s.queue| && multiset(Flatten(batches)) == multiset(s.queue[..n])
    case Commit(i) => i < |s.flight|
    case Requeue(i) => i < |s.flight|
  }

  ghost function Next<K, V, R>(p: Policy<V, R>, s: Machine<K, V, R>, step: Step<K, V>): Machine<K, V, R>
    requires Enabled(s, step)
  {
    match step
    case Upsert(k, v) => s.(queue := Upserted(p.merge, s.queue, k, v))
    case Take(n, batches) => s.(queue := s.queue[n..], flight := batches)
    case Commit(i) =>
      s.(flight := s.flight[..i] + s.flight[i + 1..], db := Applied(p.apply, s.db, s.flight[i]))
    case Requeue(i) =>
      s.(flight := s.flight[..i] + s.flight[i + 1..], queue := UpsertedAll(p.merge, s.queue, s.flight[i]))
  }

  ghost predicate Legal<K, V, R>(p: Policy<V, R>, s: Machine<K, V, R>, steps: seq<Step<K, V>>)
    decreases |steps|
  {
    steps == [] || (Enabled(s, steps[0]) && Legal(p, Next(p, s, steps[0]), steps[1..]))
  }

  ghost function Run<K, V, R>(p: Policy<V, R>, s: Machine<K, V, R>, steps: seq<Step<K, V>>): Machine<K, V, R>
    requires Legal(p, s, steps)
    decreases |steps|
  {
    if steps == [] then s else Run(p, Next(p, s, steps[0]), steps[1..])
  }

  lemma RunCons<K, V, R>(p: Policy<V, R>, s: Machine<K, V, R>, step: Step<K, V>, rest: seq<Step<K, V>>)
    requires Enabled(s, step) && Legal(p, Next(p, s, step), rest)
    ensures Legal(p, s, [step] + rest) && Run(p, s, [step] + rest) == Run(p, Next(p, s, step), rest)
  {
    assert ([step] + rest)[0] == step && ([step] + rest)[1..] == rest;
  }

  lemma {:induction false} RunConcat<K, V, R>(
      p: Policy<V, R>, s: Machine<K, V, R>, a: seq<Step<K, V>>, b: seq<Step<K, V>>)
    requires Legal(p, s, a) && Legal(p, Run(p, s, a), b)
    ensures Legal(p, s, a + b) && Run(p, s, a + b) == Run(p, Run(p, s, a), b)
    decreases |a|
  {
    if a == [] {
      assert a + b == b;
    } else {
      var step, s' := a[0], Next(p, s, a[0]);
      RunConcat(p, s', a[1..], b);
      RunCons(p, s, step, a[1..] + b);
      assert a + b == [step] + (a[1..] + b) by {
        assert a == [step] + a[1..];
      }
    }
  }

  /** The updates for one key among the upserts of a run, oldest first */
  ghost function UpdatesOf<K, V>(steps: seq<Step<K, V>>, k: K): seq<V> {
    if steps == [] then []
    else (if steps[0].Upsert? && steps[0].key == k then [steps[0].update] else []) + UpdatesOf(steps[1..], k)
  }

  // ---- What one key sees ----

  datatype KeyState<V, R> = KeyState(queued: Option<V>, flight: Option<V>, stored: Option<R>)

  datatype KeyStep<V> = Arrive(update: V) | Depart | Land | Return | Stay

  ghost predicate KeyEnabled<V, R>(s: KeyState<V, R>, e: KeyStep<V>) {
    match e
    case Arrive(_) => true
    case Depart => s.queued.Some? && s.flight.None?
    case Land => s.flight.Some?
    case Return => s.flight.Some?
    case Stay => true
  }

  function Absorbed<V>(merge: (V, V) -> V, queued: Option<V>, v: V): Option<V> {
    match queued
    case Some(u) => Some(merge(u, v))
    case None => Some(v)
  }

  ghost function KeyNext<V, R>(p: Policy<V, R>, s: KeyState<V, R>, e: KeyStep<V>): KeyState<V, R>
    requires KeyEnabled(s, e)
  {
    match e
    case Arrive(v) => s.(queued := Absorbed(p.merge, s.queued, v))
    case Depart => KeyState(None, s.queued, s.stored)
    case Land => KeyState(s.queued, None, Some(p.apply(s.stored, s.flight.value)))
    case Return => KeyState(Absorbed(p.merge, s.queued, s.flight.value), None, s.stored)
    case Stay => s
  }

  ghost function View<K, V, R>(s: Machine<K, V, R>, k: K): KeyState<V, R> {
    KeyState(Lookup(s.queue, k), Lookup(Flatten(s.flight), k), RowOf(s.db, k))
  }

  ghost function ViewStep<K, V, R>(s: Machine<K, V, R>, step: Step<K, V>, k: K): KeyStep<V>
    requires Enabled(s, step)
  {
    match step
    case Upsert(key, v) => if key == k then Arrive(v) else Stay
    case Take(n, _) => if Lookup(s.queue[..n], k).Some? then Depart else Stay
    case Commit(i) => if Lookup(s.flight[i], k).Some? then Land else Stay
    case Requeue(i) => if Lookup(s.flight[i], k).Some? then Return else Stay
  }

  lemma UpsertedSpec<K, V>(merge: (V, V) -> V, q: Table<K, V>, k: K, v: V)
    requires Distinct(q)
    ensures Distinct(Upserted(merge, q, k, v))
    ensures forall x :: Lookup(Upserted(merge, q, k, v), x) ==
                        if x == k then Absorbed(merge, Lookup(q, k), v) else Lookup(q, x)
  {
    match Lookup(q, k)
    case Some(u) => PutSpec(q, k, merge(u, v));
    case None => PutSpec(q, k, v);
  }

  lemma LookupCons<K, V>(batch: Table<K, V>, k: K)
    requires Distinct(batch) && |batch| > 0
    ensures Distinct(batch[1..])
    ensures Lookup(batch, k) == if batch[0].0 == k then Some(batch[0].1) else Lookup(batch[1..], k)
    ensures batch[0].0 == k ==> Lookup(batch[1..], k) == None
  {
    assert batch == [batch[0]] + batch[1..];
    LookupConcat([batch[0]], batch[1..], k);
    DistinctParts([batch[0]], batch[1..]);
  }

  lemma {:induction false} UpsertedAllSpec<K, V>(merge: (V, V) -> V, q: Table<K, V>, batch: Table<K, V>, k: K)
    requires Distinct(q) && Distinct(batch)
    ensures Distinct(UpsertedAll(merge, q, batch))
    ensures Lookup(UpsertedAll(merge, q, batch), k) ==
            match Lookup(batch, k) case Some(v) => Absorbed(merge, Lookup(q, k), v) case None => Lookup(q, k)
    decreases |batch|
  {
    if |batch| > 0 {
      LookupCons(batch, k);
      UpsertedSpec(merge, q, batch[0].0, batch[0].1);
      UpsertedAllSpec(merge, Upserted(merge, q, batch[0].0, batch[0].1), batch[1..], k);
    }
  }

  lemma {:induction false} AppliedSpec<K, V, R>(
      apply: (Option<R>, V) -> R, db: map<K, R>, batch: Table<K, V>, k: K)
    requires Distinct(batch)
    ensures RowOf(Applied(apply, db, batch), k) ==
            match Lookup(batch, k) case Some(v) => Some(apply(RowOf(db, k), v)) case None => RowOf(db, k)
    decreases |batch|
  {
    if |batch| > 0 {
      LookupCons(batch, k);
      AppliedSpec(apply, db[batch[0].0 := apply(RowOf(db, batch[0].0), batch[0].1)], batch[1..], k);
    }
  }

  lemma FlightParts<K, V>(flight: seq<Table<K, V>>, i: nat, k: K)
    requires i < |flight| && Distinct(Flatten(flight))
    ensures Distinct(flight[i])
    ensures Distinct(Flatten(flight[..i] + flight[i + 1..]))
    ensures Lookup(Flatten(flight), k) == if Lookup(flight[i], k).Some? then Lookup(flight[i], k)
                                          else Lookup(Flatten(flight[..i] + flight[i + 1..]), k)
    ensures Lookup(flight[i], k).Some? ==> Lookup(Flatten(flight[..i] + flight[i + 1..]), k).None?
  {
    FlattenAround(flight, i);
    RemoveMiddle(Flatten(flight[..i]), flight[i], Flatten(flight[i + 1..]), k);
  }

  lemma RemoveMiddle<K, V>(a: Table<K, V>, b: Table<K, V>, c: Table<K, V>, k: K)
    requires Distinct(a + (b + c))
    ensures Distinct(b) && Distinct(a + c)
    ensures Lookup(a + (b + c), k) == if Lookup(b, k).Some? then Lookup(b, k) else Lookup(a + c, k)
    ensures Lookup(b, k).Some? ==> Lookup(a + c, k).None?
  {
    LookupConcat(a, b + c, k);
    DistinctParts(a, b + c);
    LookupConcat(b, c, k);
    DistinctParts(b, c);
    assert Distinct(a + c);
    LookupConcat(a, c, k);
  }

  /** The step is what the key sees of it, and keeps the machine well formed */
  ghost predicate Projects<K, V, R>(p: Policy<V, R>, s: Machine<K, V, R>, step: Step<K, V>, k: K)
    requires Enabled(s, step)
  {
    && WellFormed(Next(p, s, step))
    && KeyEnabled(View(s, k), ViewStep(s, step, k))
    && View(Next(p, s, step), k) == KeyNext(p, View(s, k), ViewStep(s, step, k))
  }

  lemma UpsertProjects<K, V, R>(p: Policy<V, R>, s: Machine<K, V, R>, key: K, v: V, k: K)
    requires WellFormed(s)
    ensures Projects(p, s, Upsert(key, v), k)
  {
    UpsertedSpec(p.merge, s.queue, key, v);
  }

  lemma TakeProjects<K, V, R>(p: Policy<V, R>, s: Machine<K, V, R>, n: nat, batches: seq<Table<K, V>>, k: K)
    requires WellFormed(s) && Enabled(s, Take(n, batches))
    ensures Projects(p, s, Take(n, batches), k)
  {
    assert s.queue == s.queue[..n] + s.queue[n..];
    DistinctParts(s.queue[..n], s.queue[n..]);
    LookupConcat(s.queue[..n], s.queue[n..], k);
    DistinctUnderPermutation(s.queue[..n], Flatten(batches));
  }

  lemma CommitProjects<K, V, R>(p: Policy<V, R>, s: Machine<K, V, R>, i: nat, k: K)
    requires WellFormed(s) && i < |s.flight|
    ensures Projects(p, s, Commit(i), k)
  {
    FlightParts(s.flight, i, k);
    AppliedSpec(p.apply, s.db, s.flight[i], k);
  }

  lemma RequeueProjects<K, V, R>(p: Policy<V, R>, s: Machine<K, V, R>, i: nat, k: K)
    requires WellFormed(s) && i < |s.flight|
    ensures Projects(p, s, Requeue(i), k)
  {
    FlightParts(s.flight, i, k);
    UpsertedAllSpec(p.merge, s.queue, s.flight[i], k);
  }

  /** Every step of the machine is, for each key, one of the five steps of that key; in particular a key is
      never in two places of a flush at once. */
  lemma StepProjects<K, V, R>(p: Policy<V, R>, s: Machine<K, V, R>, step: Step<K, V>, k: K)
    requires WellFormed(s) && Enabled(s, step)
    ensures WellFormed(Next(p, s, step))
    ensures KeyEnabled(View(s, k), ViewStep(s, step, k))
    ensures View(Next(p, s, step), k) == KeyNext(p, View(s, k), ViewStep(s, step, k))
  {
    match step
    case Upsert(key, v) => UpsertProjects(p, s, key, v, k);
    case Take(n, batches) => TakeProjects(p, s, n, batches, k);
    case Commit(i) => CommitProjects(p, s, i, k);
    case Requeue(i) => RequeueProjects(p, s, i, k);
  }
}
