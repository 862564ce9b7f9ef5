/** A queue of mergeable updates and its flush, in place: upserts, batches, and the return of failed batches. */
module Queues {
  import opened MachineInts
  import opened Results
  import opened Tables
  import opened FlushProtocol

  /** Settings shared by all queues */
  datatype FlushSettings = FlushSettings(maxBatchesPerFlush: nat, maxRecordsPerBatch: Option<nat>)

  datatype QueueConfig = QueueConfig(
    maxBindingsPerFlush: nat, bindingsPerRecord: nat, extraBindingsPerFlush: nat)
  {
    /** The subtraction and the division are defined */
    predicate Valid() {
      extraBindingsPerFlush <= maxBindingsPerFlush && bindingsPerRecord > 0
    }

    function MaxBatchSize(settings: FlushSettings): nat
      requires Valid()
    {
      var maxBindings := (maxBindingsPerFlush - extraBindingsPerFlush) / bindingsPerRecord;
      match settings.maxRecordsPerBatch
      case Some(maxRecords) => Min(maxBindings, maxRecords)
      case None => maxBindings
    }

    /** A batch may hold so many records exactly if a query has the bindings for them and the settings allow them */
    lemma BatchSizeIff(settings: FlushSettings, n: nat)
      requires Valid()
      ensures n <= MaxBatchSize(settings)
              <==> && n * bindingsPerRecord + extraBindingsPerFlush <= maxBindingsPerFlush
                   && (settings.maxRecordsPerBatch.Some? ==> n <= settings.maxRecordsPerBatch.value)
    {
      var available := maxBindingsPerFlush - extraBindingsPerFlush;
      var most := available / bindingsPerRecord;
      assert most * bindingsPerRecord <= available < (most + 1) * bindingsPerRecord by {
        assert (most + 1) * bindingsPerRecord == most * bindingsPerRecord + bindingsPerRecord;
      }
      if n <= most {
        TimesMonotone(n, most, bindingsPerRecord);
      } else {
        TimesMonotone(most + 1, n, bindingsPerRecord);
      }
    }

    /** A batch never uses more bindings than a query may have */
    lemma BindingsFit(settings: FlushSettings, records: nat)
      requires Valid() && records <= MaxBatchSize(settings)
      ensures records * bindingsPerRecord + extraBindingsPerFlush <= maxBindingsPerFlush
    {
      var available := maxBindingsPerFlush - extraBindingsPerFlush;
      var most := available / bindingsPerRecord;
      assert records <= most;
      TimesMonotone(records, most, bindingsPerRecord);
      assert most * bindingsPerRecord <= available;
    }
  }

  lemma SpendBatch(rest: nat, left: nat, size: nat)
    requires 0 < rest <= left * size
    ensures size > 0 && left > 0
    ensures rest - Min(rest, size) <= (left - 1) * size
  {
    assert (left - 1) * size == left * size - size;
    if left > 0 {
      TimesMonotone(0, left - 1, size);
    }
  }

  lemma CutEnd<T>(rest: seq<T>, cut: nat, batches: seq<seq<T>>)
    requires cut <= |rest|
    ensures rest[..cut] + Flatten([rest[cut..]] + batches) == rest + Flatten(batches)
  {
    assert ([rest[cut..]] + batches)[1..] == batches;
    assert rest == rest[..cut] + rest[cut..];
    assert rest[..cut] + (rest[cut..] + Flatten(batches)) == (rest[..cut] + rest[cut..]) + Flatten(batches);
  }

  // ---- Sorting by key ----

  ghost predicate TotalOrder<K(!new)>(leq: (K, K) -> bool) {
    && (forall a, b :: leq(a, b) || leq(b, a))
    && (forall a, b :: leq(a, b) && leq(b, a) ==> a == b)
    && (forall a, b, c :: leq(a, b) && leq(b, c) ==> leq(a, c))
  }

  ghost predicate SortedByKey<K, V>(leq: (K, K) -> bool, t: Table<K, V>) {
    forall i, j :: 0 <= i < j < |t| ==> leq(t[i].0, t[j].0)
  }

  function Inserted<K, V>(leq: (K, K) -> bool, t: Table<K, V>, e: (K, V)): Table<K, V> {
    if |t| == 0 || leq(e.0, t[0].0) then [e] + t else [t[0]] + Inserted(leq, t[1..], e)
  }

  function Sorted<K, V>(leq: (K, K) -> bool, t: Table<K, V>): Table<K, V> {
    if |t| == 0 then [] else Inserted(leq, Sorted(leq, t[1..]), t[0])
  }

  lemma {:induction false} InsertedSpec<K(!new), V>(leq: (K, K) -> bool, t: Table<K, V>, e: (K, V))
    requires TotalOrder(leq) && SortedByKey(leq, t)
    ensures SortedByKey(leq, Inserted(leq, t, e))
    ensures multiset(Inserted(leq, t, e)) == multiset(t) + multiset{e}
  {
    var r := Inserted(leq, t, e);
    if |t| == 0 || leq(e.0, t[0].0) {
      assert forall j :: 0 < j < |r| ==> r[j] == t[j - 1];
    } else {
      InsertedSpec(leq, t[1..], e);
      assert t == [t[0]] + t[1..];
      var rest := Inserted(leq, t[1..], e);
      forall j | 0 <= j < |rest| ensures leq(t[0].0, rest[j].0) {
        assert rest[j] in multiset(rest);
        if rest[j] != e {
          assert rest[j] in t[1..];
          var k :| 0 <= k < |t[1..]| && t[1..][k] == rest[j];
          assert t[k + 1] == rest[j];
        }
      }
      assert forall j :: 0 < j < |r| ==> r[j] == rest[j - 1];
    }
  }

  lemma {:induction false} SortedSpec<K(!new), V>(leq: (K, K) -> bool, t: Table<K, V>)
    requires TotalOrder(leq)
    ensures SortedByKey(leq, Sorted(leq, t))
    ensures multiset(Sorted(leq, t)) == multiset(t)
    ensures |Sorted(leq, t)| == |t|
  {
    if |t| > 0 {
      SortedSpec(leq, t[1..]);
      InsertedSpec(leq, Sorted(leq, t[1..]), t[0]);
      assert t == [t[0]] + t[1..];
    }
    assert |multiset(Sorted(leq, t))| == |multiset(t)|;
  }

  /** How a flush may cut records into batches: each within the size, none empty, only the first partial */
  ghost predicate WellCut<T>(batches: seq<seq<T>>, size: nat) {
    && (forall i :: 0 <= i < |batches| ==> 0 < |batches[i]| <= size)
    && (forall i :: 0 < i < |batches| ==> |batches[i]| == size)
  }

  /** The loop has cut `batches` off the end of the records, all of them full while any record is left */
  ghost predicate CutSoFar<T>(all: seq<T>, rest: seq<T>, batches: seq<seq<T>>, size: nat, maxBatches: nat) {
    && rest + Flatten(batches) == all
    && WellCut(batches, size)
    && (|rest| > 0 ==> forall i :: 0 <= i < |batches| ==> |batches[i]| == size)
    && |batches| <= maxBatches && |rest| <= (maxBatches - |batches|) * size
  }

  lemma CutStep<T>(all: seq<T>, rest: seq<T>, batches: seq<seq<T>>, size: nat, maxBatches: nat, cut: nat)
    requires |rest| > 0 && CutSoFar(all, rest, batches, size, maxBatches)
    requires cut == |rest| - Min(|rest|, size)
    ensures cut < |rest| && CutSoFar(all, rest[..cut], [rest[cut..]] + batches, size, maxBatches)
  {
    SpendBatch(|rest|, maxBatches - |batches|, size);
    CutEnd(rest, cut, batches);
    var more := [rest[cut..]] + batches;
    assert forall i :: 0 < i < |more| ==> more[i] == batches[i - 1];
    assert maxBatches - |more| == maxBatches - |batches| - 1;
  }

  /** How many of so many records a flush takes */
  function Takes(len: nat, maxBatches: nat, size: nat): (n: nat)
    ensures n <= len
  {
    TimesMonotone(0, maxBatches, size);
    Min(len, maxBatches * size)
  }

  /** The batches of a flush and what became of each: they are the key-sorted first records, as many as fit */
  ghost predicate IsFlush<K(!new), V(!new)>(
      leq: (K, K) -> bool, size: nat, maxBatches: nat, records: Table<K, V>, batches: seq<Table<K, V>>,
      outcomes: nat -> bool, ok: seq<bool>) {
    var n := Takes(|records|, maxBatches, size);
    && multiset(Flatten(batches)) == multiset(records[..n]) && SortedByKey(leq, Flatten(batches))
    && |batches| <= maxBatches && WellCut(batches, size)
    && |ok| == |batches| && forall i: nat :: i < |ok| ==> ok[i] == outcomes(i)
  }

  lemma DistinctSuffix<K, V>(t: Table<K, V>, n: nat)
    requires Distinct(t) && n <= |t|
    ensures Distinct(t[n..])
  {
  }

  // ---- Failed batches ----

  /** The queue after the failed batches went back, in order */
  function Requeued<K(==), V>(
      merge: (V, V) -> V, q: Table<K, V>, batches: seq<Table<K, V>>, ok: seq<bool>): Table<K, V>
    requires |ok| == |batches|
    decreases |batches|
  {
    if |batches| == 0 then q
    else Requeued(merge, if ok[0] then q else UpsertedAll(merge, q, batches[0]), batches[1..], ok[1..])
  }

  /** The same with updates that arrive meanwhile, the `i`th of them before the `i`th batch is looked at */
  function Settled<K(==), V>(
      merge: (V, V) -> V, q: Table<K, V>, batches: seq<Table<K, V>>, arrivals: seq<Table<K, V>>, ok: seq<bool>)
      : Table<K, V>
    requires |ok| == |batches| == |arrivals|
    decreases |batches|
  {
    if |batches| == 0 then q
    else
      var q' := UpsertedAll(merge, q, arrivals[0]);
      Settled(merge, if ok[0] then q' else UpsertedAll(merge, q', batches[0]), batches[1..], arrivals[1..], ok[1..])
  }

  lemma {:induction false} SettledQuietly<K, V>(
      merge: (V, V) -> V, q: Table<K, V>, batches: seq<Table<K, V>>, arrivals: seq<Table<K, V>>, ok: seq<bool>)
    requires |ok| == |batches| == |arrivals| && forall i :: 0 <= i < |arrivals| ==> arrivals[i] == []
    ensures Settled(merge, q, batches, arrivals, ok) == Requeued(merge, q, batches, ok)
    decreases |batches|
  {
    if |batches| > 0 {
      SettledQuietly(merge, if ok[0] then q else UpsertedAll(merge, q, batches[0]), batches[1..], arrivals[1..], ok[1..]);
    }
  }

  function Landed<K, V, R>(
      apply: (Option<R>, V) -> R, db: map<K, R>, batches: seq<Table<K, V>>, ok: seq<bool>): map<K, R>
    requires |ok| == |batches|
    decreases |batches|
  {
    if |batches| == 0 then db
    else Landed(apply, if ok[0] then Applied(apply, db, batches[0]) else db, batches[1..], ok[1..])
  }

  class Queue<K(==, !new), V(!new)> {
    const merge: (V, V) -> V
    const leq: (K, K) -> bool
    const config: QueueConfig
    var records: Table<K, V>

    ghost predicate Valid()
      reads this
    {
      Distinct(records) && TotalOrder(leq) && config.Valid()
    }

    constructor (merge: (V, V) -> V, leq: (K, K) -> bool, config: QueueConfig)
      requires TotalOrder(leq) && config.Valid()
      ensures Valid() && records == []
      ensures this.merge == merge && this.leq == leq && this.config == config
    {
      this.merge := merge;
      this.leq := leq;
      this.config := config;
      records := [];
    }

    method Upsert(key: K, value: V)
      requires Valid()
      modifies this
      ensures Valid() && records == Upserted(merge, old(records), key, value)
    {
      UpsertedSpec(merge, records, key, value);
      var i := Find(records, key);
      if i < |records| {
        records := records[i := (key, merge(records[i].1, value))];
      } else {
        records := records + [(key, value)];
      }
    }

    /** The first records of the queue, sorted by key and cut into batches; the rest keeps its order */
    method TakeBatches(settings: FlushSettings) returns (batches: seq<Table<K, V>>)
      requires Valid()
      modifies this
      ensures Valid()
      ensures var size := config.MaxBatchSize(settings);
              var n := Min(|old(records)|, settings.maxBatchesPerFlush * size);
              && records == old(records)[n..]
              && multiset(Flatten(batches)) == multiset(old(records)[..n])
              && SortedByKey(leq, Flatten(batches))
              && |batches| <= settings.maxBatchesPerFlush
              && WellCut(batches, size)
      ensures settings.maxRecordsPerBatch.Some? ==>
                forall i :: 0 <= i < |batches| ==> |batches[i]| <= settings.maxRecordsPerBatch.value
    {
      var maxBatches := settings.maxBatchesPerFlush;
      var size := config.MaxBatchSize(settings);
      var n := Min(|records|, maxBatches * size);
      var taken := Sorted(leq, records[..n]);
      SortedSpec(leq, records[..n]);
      DistinctSuffix(records, n);
      records := records[n..];
      batches := Cut(taken, size, maxBatches);
    }

    static method Cut(sorted: Table<K, V>, size: nat, maxBatches: nat) returns (batches: seq<Table<K, V>>)
      requires |sorted| <= maxBatches * size
      ensures Flatten(batches) == sorted
      ensures |batches| <= maxBatches
      ensures WellCut(batches, size)
    {
      var rest := sorted;
      batches := [];
      assert sorted + [] == sorted;
      while |rest| > 0
        invariant CutSoFar(sorted, rest, batches, size, maxBatches)
        decreases |rest|
      {
        var cut := |rest| - Min(|rest|, size);
        CutStep(sorted, rest, batches, size, maxBatches, cut);
        batches := [rest[cut..]] + batches;
        rest := rest[..cut];
      }
      assert [] + Flatten(batches) == Flatten(batches);
    }

    method UpsertBatch(batch: Table<K, V>)
      requires Valid()
      modifies this
      ensures Valid() && records == UpsertedAll(merge, old(records), batch)
    {
      for i := 0 to |batch|
        invariant Valid()
        invariant UpsertedAll(merge, records, batch[i..]) == UpsertedAll(merge, old(records), batch)
      {
        assert batch[i..][0] == batch[i] && batch[i..][1..] == batch[i + 1..];
        Upsert(batch[i].0, batch[i].1);
      }
    }

    /** The end of a flush: batches that reached the database are done, the others go back behind whatever was
        queued meanwhile. The queue is unlocked in between, so that updates may arrive before each batch. */
    method SettleBatches(batches: seq<Table<K, V>>, arrivals: seq<Table<K, V>>, ok: seq<bool>)
      requires Valid() && |ok| == |batches| == |arrivals|
      modifies this
      ensures Valid() && records == Settled(merge, old(records), batches, arrivals, ok)
    {
      for i := 0 to |batches|
        invariant Valid()
        invariant Settled(merge, records, batches[i..], arrivals[i..], ok[i..])
                  == Settled(merge, old(records), batches, arrivals, ok)
      {
        assert batches[i..][0] == batches[i] && batches[i..][1..] == batches[i + 1..];
        assert arrivals[i..][0] == arrivals[i] && arrivals[i..][1..] == arrivals[i + 1..];
        assert ok[i..][0] == ok[i] && ok[i..][1..] == ok[i + 1..];
        UpsertBatch(arrivals[i]);
        if !ok[i] {
          UpsertBatch(batches[i]);
        }
      }
    }

    /** How many records a flush takes */
    function FlushSize(settings: FlushSettings): nat
      requires config.Valid()
      reads this
    {
      Takes(|records|, settings.maxBatchesPerFlush, config.MaxBatchSize(settings))
    }

    /** A whole flush. The first of `meanwhile` are upserted while the batches are written and the others between the
        batches that are settled; `outcomes` says which batches reach the database. */
    method FlushDuring(settings: FlushSettings, meanwhile: nat -> Table<K, V>, outcomes: nat -> bool)
        returns (ghost batches: seq<Table<K, V>>, ghost arrivals: seq<Table<K, V>>, ghost ok: seq<bool>)
      requires Valid()
      modifies this
      ensures Valid()
      ensures IsFlush(leq, config.MaxBatchSize(settings), settings.maxBatchesPerFlush, old(records), batches, outcomes, ok)
      ensures |arrivals| == |batches| && forall i: nat :: i < |arrivals| ==> arrivals[i] == meanwhile(i)
      ensures records == Settled(merge, old(records)[old(FlushSize(settings))..], batches, arrivals, ok)
    {
      var taken := TakeBatches(settings);
      var results := seq(|taken|, i requires 0 <= i => outcomes(i));
      var arriving := seq(|taken|, i requires 0 <= i => meanwhile(i));
      SettleBatches(taken, arriving, results);
      batches, arrivals, ok := taken, arriving, results;
    }

    /** A flush during which nothing is queued */
    method Flush(settings: FlushSettings, outcomes: nat -> bool)
        returns (ghost batches: seq<Table<K, V>>, ghost ok: seq<bool>)
      requires Valid()
      modifies this
      ensures Valid()
      ensures IsFlush(leq, config.MaxBatchSize(settings), settings.maxBatchesPerFlush, old(records), batches, outcomes, ok)
      ensures records == Requeued(merge, old(records)[old(FlushSize(settings))..], batches, ok)
    {
      ghost var arrivals;
      batches, arrivals, ok := FlushDuring(settings, (i: nat) => [], outcomes);
      SettledQuietly(merge, old(records)[old(FlushSize(settings))..], batches, arrivals, ok);
    }

    predicate IsNotEmpty()
      reads this
    {
      |records| > 0
    }
  }

  /** A flush never lengthens a queue, and shortens it by what it took if every batch succeeds */
  lemma FlushedLength<K(!new), V(!new)>(
      merge: (V, V) -> V, records: Table<K, V>, n: nat, batches: seq<Table<K, V>>, ok: seq<bool>)
    requires Distinct(records) && n <= |records| && |ok| == |batches|
    requires multiset(Flatten(batches)) == multiset(records[..n])
    ensures |records| - n <= |Requeued(merge, records[n..], batches, ok)| <= |records|
    ensures (forall i :: 0 <= i < |ok| ==> ok[i]) ==> |Requeued(merge, records[n..], batches, ok)| == |records| - n
  {
    var rest, taken := records[n..], Flatten(batches);
    assert |multiset(taken)| == |multiset(records[..n])|;
    assert records == records[..n] + rest;
    assert multiset(rest + taken) == multiset(rest) + multiset(taken);
    DistinctUnderPermutation(records, rest + taken);
    RequeuedSize(merge, rest, batches, ok);
  }

  // ---- A flush is a run of the protocol ----

  function ArrivalSteps<K, V>(arrivals: Table<K, V>): seq<Step<K, V>>
    decreases |arrivals|
  {
    if |arrivals| == 0 then [] else [Upsert(arrivals[0].0, arrivals[0].1)] + ArrivalSteps(arrivals[1..])
  }

  /** Upserts one after the other are a legal run of the protocol */
  lemma {:induction false} ArrivingIsARun<K(!new), V(!new), R(!new)>(
      p: Policy<V, R>, s: Machine<K, V, R>, arrivals: Table<K, V>)
    ensures Legal(p, s, ArrivalSteps(arrivals))
    ensures Run(p, s, ArrivalSteps(arrivals)) == s.(queue := UpsertedAll(p.merge, s.queue, arrivals))
    decreases |arrivals|
  {
    if |arrivals| > 0 {
      var step := Upsert(arrivals[0].0, arrivals[0].1);
      ArrivingIsARun(p, Next(p, s, step), arrivals[1..]);
      var steps := ArrivalSteps(arrivals);
      assert steps[0] == step && steps[1..] == ArrivalSteps(arrivals[1..]);
    }
  }

  ghost function OutcomeStep<K, V>(ok: bool): Step<K, V> {
    if ok then Commit(0) else Requeue(0)
  }

  /** Each batch lands or goes back, after the updates that arrived before */
  ghost function SettleSteps<K, V>(arrivals: seq<Table<K, V>>, ok: seq<bool>): seq<Step<K, V>>
    requires |arrivals| == |ok|
    decreases |ok|
  {
    if ok == [] then []
    else ArrivalSteps(arrivals[0]) + ([OutcomeStep(ok[0])] + SettleSteps(arrivals[1..], ok[1..]))
  }

  lemma SettlingNext<K(!new), V(!new), R(!new)>(p: Policy<V, R>, s: Machine<K, V, R>, ok: bool)
    requires |s.flight| > 0
    ensures Enabled(s, OutcomeStep<K, V>(ok))
    ensures Next(p, s, OutcomeStep<K, V>(ok))
            == Machine(if ok then s.queue else UpsertedAll(p.merge, s.queue, s.flight[0]), s.flight[1..],
                       if ok then Applied(p.apply, s.db, s.flight[0]) else s.db)
  {
    assert s.flight[..0] + s.flight[1..] == s.flight[1..];
  }

  /** Settling the batches of a flush, with any updates in between, is a legal run of the protocol, and ends the flush */
  lemma {:induction false} SettlingIsARun<K(!new), V(!new), R(!new)>(
      p: Policy<V, R>, s: Machine<K, V, R>, arrivals: seq<Table<K, V>>, ok: seq<bool>)
    requires |ok| == |s.flight| == |arrivals|
    ensures Legal(p, s, SettleSteps(arrivals, ok))
    ensures Run(p, s, SettleSteps(arrivals, ok))
            == Machine(Settled(p.merge, s.queue, s.flight, arrivals, ok), [], Landed(p.apply, s.db, s.flight, ok))
    decreases |ok|
  {
    if ok != [] {
      var arrived := s.(queue := UpsertedAll(p.merge, s.queue, arrivals[0]));
      var step, rest := OutcomeStep<K, V>(ok[0]), SettleSteps(arrivals[1..], ok[1..]);
      ArrivingIsARun(p, s, arrivals[0]);
      SettlingNext(p, arrived, ok[0]);
      SettlingIsARun(p, Next(p, arrived, step), arrivals[1..], ok[1..]);
      RunCons(p, arrived, step, rest);
      RunConcat(p, s, ArrivalSteps(arrivals[0]), [step] + rest);
    }
  }

  /** The steps of one flush: the batches are taken, updates arrive while they are written and settled, and each batch
      lands or goes back. */
  ghost function FlushSteps<K, V>(n: nat, batches: seq<Table<K, V>>, arrivals: seq<Table<K, V>>, ok: seq<bool>)
      : seq<Step<K, V>>
    requires |arrivals| == |ok|
  {
    [Take(n, batches)] + SettleSteps(arrivals, ok)
  }

  /** A whole flush, as the queue's methods carry it out, is one legal run of the protocol, whatever is queued meanwhile
      and whichever batches fail: it leaves the records that the methods leave, writes the batches that landed, and
      ends with nothing in flight. */
  lemma FlushIsARun<K(!new), V(!new), R(!new)>(
      p: Policy<V, R>, s: Machine<K, V, R>, n: nat, batches: seq<Table<K, V>>, arrivals: seq<Table<K, V>>, ok: seq<bool>)
    requires s.flight == [] && n <= |s.queue| && multiset(Flatten(batches)) == multiset(s.queue[..n])
    requires |ok| == |batches| == |arrivals|
    ensures Legal(p, s, FlushSteps(n, batches, arrivals, ok))
    ensures Run(p, s, FlushSteps(n, batches, arrivals, ok))
            == Machine(Settled(p.merge, s.queue[n..], batches, arrivals, ok), [], Landed(p.apply, s.db, batches, ok))
  {
    var take: Step<K, V> := Take(n, batches);
    SettlingIsARun(p, Next(p, s, take), arrivals, ok);
    RunCons(p, s, take, SettleSteps(arrivals, ok));
  }

  // ---- Draining ----

  /** With no arrivals, a flush whose batches all fail only reorders the queue, and one whose batches all succeed
      shortens it by what it took. */
  lemma {:induction false} RequeuedSize<K(!new), V(!new)>(
      merge: (V, V) -> V, q: Table<K, V>, batches: seq<Table<K, V>>, ok: seq<bool>)
    requires |ok| == |batches| && Distinct(q + Flatten(batches))
    ensures Distinct(Requeued(merge, q, batches, ok))
    ensures |q| <= |Requeued(merge, q, batches, ok)| <= |q| + |Flatten(batches)|
    ensures (forall i :: 0 <= i < |ok| ==> ok[i]) ==> Requeued(merge, q, batches, ok) == q
    ensures (forall i :: 0 <= i < |ok| ==> !ok[i]) ==> Requeued(merge, q, batches, ok) == q + Flatten(batches)
    decreases |batches|
  {
    if |batches| == 0 {
      assert q + [] == q;
    } else {
      var b, rest := batches[0], Flatten(batches[1..]);
      assert q + Flatten(batches) == (q + b) + rest;
      DistinctParts(q + b, rest);
      UpsertedDisjoint(merge, q, b);
      if ok[0] {
        DropMiddle(q, b, rest);
        RequeuedSize(merge, q, batches[1..], ok[1..]);
      } else {
        RequeuedSize(merge, q + b, batches[1..], ok[1..]);
        assert (forall i :: 0 <= i < |ok| ==> !ok[i]) ==> forall i :: 0 <= i < |ok[1..]| ==> !ok[1..][i];
      }
    }
  }

  lemma DropMiddle<K, V>(a: Table<K, V>, b: Table<K, V>, c: Table<K, V>)
    requires Distinct((a + b) + c)
    ensures Distinct(a + c)
  {
    var whole, part := (a + b) + c, a + c;
    forall i, j | 0 <= i < j < |part| ensures part[i].0 != part[j].0 {
      var i' := if i < |a| then i else i + |b|;
      var j' := if j < |a| then j else j + |b|;
      assert whole[i'] == part[i] && whole[j'] == part[j];
    }
  }

  lemma {:induction false} UpsertedDisjoint<K, V>(merge: (V, V) -> V, q: Table<K, V>, batch: Table<K, V>)
    requires Distinct(q + batch)
    ensures UpsertedAll(merge, q, batch) == q + batch
    decreases |batch|
  {
    if |batch| == 0 {
      assert q + batch == q;
    } else {
      var (k, v) := batch[0];
      assert (q + batch)[|q|] == batch[0];
      assert forall j :: 0 <= j < |q| ==> (q + batch)[j] == q[j];
      assert Find(q, k) == |q|;
      assert Upserted(merge, q, k, v) == q + [(k, v)];
      assert (q + [(k, v)]) + batch[1..] == q + batch;
      UpsertedDisjoint(merge, q + [(k, v)], batch[1..]);
    }
  }
}
