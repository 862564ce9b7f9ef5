/** Steps of a queue taken together: moves from one state to another, the updates among them, and whole flushes. */
module QueueTraces {
  import opened Tables
  import opened FlushProtocol
  import opened KeyRuns
  import opened Queues

  /** From one state to the next the queue makes these steps */
  ghost predicate IsMove<K(!new), V(!new), R(!new)>(
      p: Policy<V, R>, m: Machine<K, V, R>, steps: seq<Step<K, V>>, m': Machine<K, V, R>) {
    Legal(p, m, steps) && Run(p, m, steps) == m'
  }

  function OwnUpdate<K(==), V>(step: Step<K, V>, k: K): seq<V> {
    if step.Upsert? && step.key == k then [step.update] else []
  }

  lemma UpdatesOfCons<K, V>(step: Step<K, V>, rest: seq<Step<K, V>>, k: K)
    ensures UpdatesOf([step] + rest, k) == OwnUpdate(step, k) + UpdatesOf(rest, k)
  {
    assert ([step] + rest)[0] == step && ([step] + rest)[1..] == rest;
  }

  lemma {:induction false} UpdatesOfConcat<K, V>(a: seq<Step<K, V>>, b: seq<Step<K, V>>, k: K)
    ensures UpdatesOf(a + b, k) == UpdatesOf(a, k) + UpdatesOf(b, k)
  {
    if a == [] {
      assert a + b == b;
    } else {
      var step, rest := a[0], a[1..];
      UpdatesOfConcat(rest, b, k);
      assert a == [step] + rest;
      Associate([step], rest, b);
      UpdatesOfCons(step, rest, k);
      UpdatesOfCons(step, rest + b, k);
      Associate(OwnUpdate(step, k), UpdatesOf(rest, k), UpdatesOf(b, k));
    }
  }

  /** The values of a key among the entries, in order */
  function ValuesFor<K(==), V>(t: Table<K, V>, k: K): seq<V>
    decreases |t|
  {
    if |t| == 0 then [] else (if t[0].0 == k then [t[0].1] else []) + ValuesFor(t[1..], k)
  }

  lemma ValuesForCons<K, V>(e: (K, V), rest: Table<K, V>, k: K)
    ensures ValuesFor([e] + rest, k) == (if e.0 == k then [e.1] else []) + ValuesFor(rest, k)
  {
    assert ([e] + rest)[0] == e && ([e] + rest)[1..] == rest;
  }

  lemma {:induction false} ValuesForConcat<K, V>(a: Table<K, V>, b: Table<K, V>, k: K)
    ensures ValuesFor(a + b, k) == ValuesFor(a, k) + ValuesFor(b, k)
    decreases |a|
  {
    if |a| == 0 {
      assert a + b == b;
    } else {
      var e, rest := a[0], a[1..];
      ValuesForConcat(rest, b, k);
      assert a == [e] + rest;
      Associate([e], rest, b);
      ValuesForCons(e, rest, k);
      ValuesForCons(e, rest + b, k);
      Associate(if e.0 == k then [e.1] else [], ValuesFor(rest, k), ValuesFor(b, k));
    }
  }

  lemma {:induction false} UpdatesOfArrivals<K, V>(t: Table<K, V>, k: K)
    ensures UpdatesOf(ArrivalSteps(t), k) == ValuesFor(t, k)
    decreases |t|
  {
    if |t| > 0 {
      UpdatesOfArrivals(t[1..], k);
      var steps := ArrivalSteps(t);
      assert steps[0] == Upsert(t[0].0, t[0].1) && steps[1..] == ArrivalSteps(t[1..]);
    }
  }

  lemma {:induction false} SumConcat<V>(amount: V -> int, a: seq<V>, b: seq<V>)
    ensures Sum(amount, a + b) == Sum(amount, a) + Sum(amount, b)
  {
    if a == [] {
      assert a + b == b;
    } else {
      SumConcat(amount, a[1..], b);
      assert (a + b)[0] == a[0] && (a + b)[1..] == a[1..] + b;
    }
  }

  lemma {:induction false} UpdatesOfSettling<K, V>(arrivals: seq<Table<K, V>>, ok: seq<bool>, k: K)
    requires |arrivals| == |ok|
    ensures UpdatesOf(SettleSteps(arrivals, ok), k) == ValuesFor(Flatten(arrivals), k)
    decreases |ok|
  {
    if ok != [] {
      var step, rest := OutcomeStep<K, V>(ok[0]), SettleSteps(arrivals[1..], ok[1..]);
      UpdatesOfSettling(arrivals[1..], ok[1..], k);
      UpdatesOfConcat(ArrivalSteps(arrivals[0]), [step] + rest, k);
      UpdatesOfArrivals(arrivals[0], k);
      UpdatesOfCons(step, rest, k);
      ValuesForConcat(arrivals[0], Flatten(arrivals[1..]), k);
    }
  }

  /** One whole flush loses and gains nothing, whatever is queued meanwhile and whichever batches fail: for every key,
      what is stored and queued at its end is what was stored and queued at its start, and what was queued meanwhile. */
  lemma FlushConserves<K(!new), V(!new), R(!new)>(
      p: Policy<V, R>, amount: V -> int, total: R -> int, cap: int, records: Table<K, V>, db: map<K, R>, n: nat,
      batches: seq<Table<K, V>>, arrivals: seq<Table<K, V>>, ok: seq<bool>, k: K)
    requires AddsUp(p, amount, total, cap) && Distinct(records) && n <= |records| && |ok| == |batches| == |arrivals|
    requires multiset(Flatten(batches)) == multiset(records[..n])
    requires AmountOf(amount, Lookup(records, k)) + Sum(amount, ValuesFor(Flatten(arrivals), k)) <= cap
    ensures var records' := Settled(p.merge, records[n..], batches, arrivals, ok);
            var db' := Landed(p.apply, db, batches, ok);
            AmountOf(total, RowOf(db', k)) + AmountOf(amount, Lookup(records', k))
            == AmountOf(total, RowOf(db, k)) + AmountOf(amount, Lookup(records, k))
               + Sum(amount, ValuesFor(Flatten(arrivals), k))
  {
    var m := Machine(records, [], db);
    var steps := FlushSteps(n, batches, arrivals, ok);
    FlushIsARun(p, m, n, batches, arrivals, ok);
    FlushUpdates(n, batches, arrivals, ok, k);
    LedgerAtRest(amount, total, m, k);
    LedgerAtRest(amount, total, Run(p, m, steps), k);
    TransfersAreConserved(p, amount, total, cap, m, steps, k);
  }

  lemma FlushUpdates<K, V>(n: nat, batches: seq<Table<K, V>>, arrivals: seq<Table<K, V>>, ok: seq<bool>, k: K)
    requires |arrivals| == |ok|
    ensures UpdatesOf(FlushSteps(n, batches, arrivals, ok), k) == ValuesFor(Flatten(arrivals), k)
  {
    UpdatesOfCons(Take(n, batches), SettleSteps(arrivals, ok), k);
    UpdatesOfSettling(arrivals, ok, k);
  }

  lemma LedgerAtRest<K, V, R>(amount: V -> int, total: R -> int, m: Machine<K, V, R>, k: K)
    requires m.flight == []
    ensures WellFormed(m) <==> Distinct(m.queue)
    ensures View(m, k).flight.None?
    ensures Ledger(amount, total, View(m, k)) == AmountOf(total, RowOf(m.db, k)) + AmountOf(amount, Lookup(m.queue, k))
  {
  }
}
