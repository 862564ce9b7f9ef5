/** Runs of one key put together: flushes after every update, after all of them, or after a returned batch; and such runs
    carried out by a whole queue. */
module Schedules {
  import opened Results
  import opened Tables
  import opened FlushProtocol
  import opened KeyRuns

  predicate Drained<V, R>(s: KeyState<V, R>) {
    s.queued.None? && s.flight.None?
  }

  function Last<V>(h: seq<V>): V
    requires h != []
  {
    h[|h| - 1]
  }

  /** A run that takes in the updates `h` and leaves nothing queued or in flight */
  ghost predicate IsDrainingRun<V(!new), R(!new)>(p: Policy<V, R>, s: KeyState<V, R>, h: seq<V>, es: seq<KeyStep<V>>) {
    KeyLegal(p, s, es) && Arrivals(es) == h && Drained(KeyRun(p, s, es))
  }

  /** No batch comes back while there is something newer in the queue */
  ghost predicate NoneReturnsBehind<V, R>(p: Policy<V, R>, s: KeyState<V, R>, es: seq<KeyStep<V>>)
    requires KeyLegal(p, s, es)
    decreases |es|
  {
    es == [] || ((es[0].Return? ==> s.queued.None?) && NoneReturnsBehind(p, KeyNext(p, s, es[0]), es[1..]))
  }

  // ---- Runs end to end ----

  lemma {:induction false} JoinArrivals<V>(a: seq<KeyStep<V>>, b: seq<KeyStep<V>>)
    ensures Arrivals(a + b) == Arrivals(a) + Arrivals(b)
  {
    if a == [] {
      assert a + b == b;
    } else {
      JoinArrivals(a[1..], b);
      assert (a + b)[0] == a[0] && (a + b)[1..] == a[1..] + b;
    }
  }

  lemma ConsRun<V, R>(p: Policy<V, R>, s: KeyState<V, R>, e: KeyStep<V>, rest: seq<KeyStep<V>>)
    requires KeyEnabled(s, e) && KeyLegal(p, KeyNext(p, s, e), rest)
    ensures KeyLegal(p, s, [e] + rest) && KeyRun(p, s, [e] + rest) == KeyRun(p, KeyNext(p, s, e), rest)
    ensures Arrivals([e] + rest) == (if e.Arrive? then [e.update] else []) + Arrivals(rest)
    ensures NoneReturnsBehind(p, s, [e] + rest)
            <==> (e.Return? ==> s.queued.None?) && NoneReturnsBehind(p, KeyNext(p, s, e), rest)
  {
    assert ([e] + rest)[0] == e && ([e] + rest)[1..] == rest;
  }

  lemma {:induction false} JoinRuns<V, R>(p: Policy<V, R>, s: KeyState<V, R>, a: seq<KeyStep<V>>, b: seq<KeyStep<V>>)
    requires KeyLegal(p, s, a) && KeyLegal(p, KeyRun(p, s, a), b)
    ensures KeyLegal(p, s, a + b) && KeyRun(p, s, a + b) == KeyRun(p, KeyRun(p, s, a), b)
    ensures Arrivals(a + b) == Arrivals(a) + Arrivals(b)
    ensures NoneReturnsBehind(p, s, a + b)
            <==> NoneReturnsBehind(p, s, a) && NoneReturnsBehind(p, KeyRun(p, s, a), b)
    decreases |a|
  {
    JoinArrivals(a, b);
    if a == [] {
      assert a + b == b;
    } else {
      var s' := KeyNext(p, s, a[0]);
      JoinRuns(p, s', a[1..], b);
      assert a + b == [a[0]] + (a[1..] + b);
      ConsRun(p, s, a[0], a[1..] + b);
    }
  }

  lemma {:induction false} WithoutReturns<V, R>(p: Policy<V, R>, s: KeyState<V, R>, es: seq<KeyStep<V>>)
    requires KeyLegal(p, s, es) && Return !in es
    ensures NoneReturnsBehind(p, s, es)
    decreases |es|
  {
    if es != [] {
      WithoutReturns(p, KeyNext(p, s, es[0]), es[1..]);
    }
  }

  // ---- A flush after every update ----

  function Eager<V>(h: seq<V>): seq<KeyStep<V>> {
    if h == [] then [] else [Arrive(h[0]), Depart, Land] + Eager(h[1..])
  }

  lemma FlushedAtOnce<V, R>(p: Policy<V, R>, s: KeyState<V, R>, v: V)
    requires Drained(s)
    ensures var es := [Arrive(v), Depart, Land];
            && KeyLegal(p, s, es) && Arrivals(es) == [v] && NoneReturnsBehind(p, s, es)
            && KeyRun(p, s, es) == KeyState(None, None, Some(p.apply(s.stored, v)))
  {
    var s1 := KeyNext(p, s, Arrive(v));
    LastFlush(p, s1);
    ConsRun(p, s, Arrive(v), [Depart, Land]);
    assert [Arrive(v)] + [Depart, Land] == [Arrive(v), Depart, Land];
    assert [v] + [] == [v];
  }

  lemma {:induction false} EagerRun<V, R>(p: Policy<V, R>, s: KeyState<V, R>, h: seq<V>)
    requires Drained(s)
    ensures KeyLegal(p, s, Eager(h)) && Arrivals(Eager(h)) == h && Drained(KeyRun(p, s, Eager(h)))
    decreases |h|
  {
    if h != [] {
      FlushedAtOnce(p, s, h[0]);
      var s' := KeyState(None, None, Some(p.apply(s.stored, h[0])));
      EagerRun(p, s', h[1..]);
      JoinRuns(p, s, [Arrive(h[0]), Depart, Land], Eager(h[1..]));
      assert h == [h[0]] + h[1..];
    }
  }

  // ---- One flush after all updates ----

  /** All updates one after the other */
  function Arriving<V>(h: seq<V>): seq<KeyStep<V>> {
    if h == [] then [] else [Arrive(h[0])] + Arriving(h[1..])
  }

  /** What a queued record makes of later updates */
  function Absorbing<V>(merge: (V, V) -> V, q: V, h: seq<V>): V
    decreases |h|
  {
    if h == [] then q else Absorbing(merge, merge(q, h[0]), h[1..])
  }

  /** What all of them come to in an empty queue */
  function Pooled<V>(merge: (V, V) -> V, h: seq<V>): Option<V> {
    if h == [] then None else Some(Absorbing(merge, h[0], h[1..]))
  }

  lemma {:induction false} ArrivingBehind<V, R>(p: Policy<V, R>, s: KeyState<V, R>, q: V, h: seq<V>)
    requires s.queued == Some(q)
    ensures KeyLegal(p, s, Arriving(h)) && Arrivals(Arriving(h)) == h && NoneReturnsBehind(p, s, Arriving(h))
    ensures KeyRun(p, s, Arriving(h)) == s.(queued := Some(Absorbing(p.merge, q, h)))
    decreases |h|
  {
    if h != [] {
      var s' := KeyNext(p, s, Arrive(h[0]));
      ArrivingBehind(p, s', p.merge(q, h[0]), h[1..]);
      ConsRun(p, s, Arrive(h[0]), Arriving(h[1..]));
      assert h == [h[0]] + h[1..];
    }
  }

  lemma ArrivingRun<V, R>(p: Policy<V, R>, s: KeyState<V, R>, h: seq<V>)
    requires s.queued.None?
    ensures KeyLegal(p, s, Arriving(h)) && Arrivals(Arriving(h)) == h && NoneReturnsBehind(p, s, Arriving(h))
    ensures KeyRun(p, s, Arriving(h)) == s.(queued := Pooled(p.merge, h))
  {
    if h != [] {
      var s' := KeyNext(p, s, Arrive(h[0]));
      ArrivingBehind(p, s', h[0], h[1..]);
      ConsRun(p, s, Arrive(h[0]), Arriving(h[1..]));
      assert h == [h[0]] + h[1..];
    }
  }

  /** All updates in the queue, and then one flush */
  function Lazy<V>(h: seq<V>): seq<KeyStep<V>> {
    Arriving(h) + [Depart, Land]
  }

  lemma LazyRun<V(!new), R(!new)>(p: Policy<V, R>, s: KeyState<V, R>, h: seq<V>)
    requires Drained(s) && h != []
    ensures IsDrainingRun(p, s, h, Lazy(h)) && NoneReturnsBehind(p, s, Lazy(h))
    ensures KeyRun(p, s, Lazy(h)) == KeyState(None, None, Some(p.apply(s.stored, Pooled(p.merge, h).value)))
  {
    ArrivingRun(p, s, h);
    var full := s.(queued := Pooled(p.merge, h));
    LastFlush(p, full);
    JoinRuns(p, s, Arriving(h), [Depart, Land]);
    assert h + [] == h;
  }

  lemma LastFlush<V, R>(p: Policy<V, R>, s: KeyState<V, R>)
    requires s.queued.Some? && s.flight.None?
    ensures var es: seq<KeyStep<V>> := [Depart, Land];
            && KeyLegal(p, s, es) && Arrivals(es) == [] && NoneReturnsBehind(p, s, es)
            && KeyRun(p, s, es) == KeyState(None, None, Some(p.apply(s.stored, s.queued.value)))
  {
    var s1 := KeyNext(p, s, Depart);
    ConsRun(p, s1, Land, []);
    ConsRun(p, s, Depart, [Land]);
    var land: seq<KeyStep<V>> := [Land];
    assert [Depart] + land == [Depart, Land] && land + [] == land;
  }

  // ---- A batch that comes back ----

  /** The updates up to the `i`th are in flight while the others arrive; they come back and are flushed with them. */
  function Failing<V>(h: seq<V>, i: nat): seq<KeyStep<V>>
    requires i < |h|
  {
    Arriving(h[..i + 1]) + ([Depart] + (Arriving(h[i + 1..]) + [Return, Depart, Land]))
  }

  lemma FailingRun<V(!new), R(!new)>(p: Policy<V, R>, s: KeyState<V, R>, h: seq<V>, i: nat)
    requires Drained(s) && i < |h|
    ensures IsDrainingRun(p, s, h, Failing(h, i))
    ensures var back := Absorbed(p.merge, Pooled(p.merge, h[i + 1..]), Pooled(p.merge, h[..i + 1]).value);
            KeyRun(p, s, Failing(h, i)) == KeyState(None, None, Some(p.apply(s.stored, back.value)))
  {
    var front, rest := h[..i + 1], h[i + 1..];
    ArrivingRun(p, s, front);
    var full := s.(queued := Pooled(p.merge, front));
    var gone := KeyNext(p, full, Depart);
    ArrivingRun(p, gone, rest);
    var met := gone.(queued := Pooled(p.merge, rest));
    BackAndFlushed(p, met);
    JoinRuns(p, gone, Arriving(rest), [Return, Depart, Land]);
    ConsRun(p, full, Depart, Arriving(rest) + [Return, Depart, Land]);
    JoinRuns(p, s, Arriving(front), [Depart] + (Arriving(rest) + [Return, Depart, Land]));
    assert front + ([] + (rest + [])) == h;
  }

  lemma BackAndFlushed<V, R>(p: Policy<V, R>, s: KeyState<V, R>)
    requires s.flight.Some?
    ensures var es: seq<KeyStep<V>> := [Return, Depart, Land];
            var back := Absorbed(p.merge, s.queued, s.flight.value);
            && KeyLegal(p, s, es) && Arrivals(es) == []
            && KeyRun(p, s, es) == KeyState(None, None, Some(p.apply(s.stored, back.value)))
  {
    var s1 := KeyNext(p, s, Return);
    LastFlush(p, s1);
    ConsRun(p, s, Return, [Depart, Land]);
    var flush: seq<KeyStep<V>> := [Depart, Land];
    assert [Return] + flush == [Return, Depart, Land];
  }

  // ---- The same run by a whole queue ----

  /** These schedules need no returned batch, and none of them stands still */
  lemma {:induction false} SchedulesMove<V>(h: seq<V>)
    ensures Stay !in Eager(h) && Return !in Eager(h) && Stay !in Arriving(h) && Return !in Arriving(h)
  {
    if h != [] {
      SchedulesMove(h[1..]);
    }
  }

  /** Nothing but this key is queued or in flight */
  ghost predicate Solo<K(!new), V(!new), R(!new)>(m: Machine<K, V, R>, k: K) {
    && (m.queue == [] || exists v :: m.queue == [(k, v)])
    && (m.flight == [] || exists v :: m.flight == [[(k, v)]])
  }

  ghost function SoloStep<K(!new), V(!new), R(!new)>(m: Machine<K, V, R>, k: K, e: KeyStep<V>): Step<K, V>
    requires !e.Stay?
  {
    match e
    case Arrive(v) => Upsert(k, v)
    case Depart => Take(|m.queue|, [m.queue])
    case Land => Commit(0)
    case Return => Requeue(0)
  }

  lemma LookupOfOne<K(!new), V(!new)>(k: K, v: V)
    ensures Lookup([(k, v)], k) == Some(v) && Flatten([[(k, v)]]) == [(k, v)]
  {
    assert [[(k, v)]][1..] == [] && Flatten<(K, V)>([]) == [];
    assert [(k, v)] + [] == [(k, v)];
  }

  lemma SoloView<K(!new), V(!new), R(!new)>(m: Machine<K, V, R>, k: K)
    requires Solo(m, k)
    ensures WellFormed(m)
    ensures View(m, k).queued.None? <==> m.queue == []
    ensures View(m, k).flight.None? <==> m.flight == []
  {
    forall v: V ensures Lookup([(k, v)], k) == Some(v) && Flatten([[(k, v)]]) == [(k, v)] {
      LookupOfOne(k, v);
    }
    assert Flatten<(K, V)>([]) == [];
  }

  lemma UpsertSolo<K(!new), V(!new)>(merge: (V, V) -> V, q: Table<K, V>, k: K, v: V)
    requires q == [] || exists u :: q == [(k, u)]
    ensures exists u :: Upserted(merge, q, k, v) == [(k, u)]
  {
    LookupOfOne(k, v);
    if q != [] {
      var u :| q == [(k, u)];
      LookupOfOne(k, u);
      assert Upserted(merge, q, k, v) == [(k, merge(u, v))];
    } else {
      assert Upserted(merge, q, k, v) == [(k, v)];
    }
  }

  lemma SoloStepRealises<K(!new), V(!new), R(!new)>(p: Policy<V, R>, m: Machine<K, V, R>, k: K, e: KeyStep<V>)
    requires Solo(m, k) && !e.Stay? && KeyEnabled(View(m, k), e)
    ensures var step := SoloStep(m, k, e);
            && Enabled(m, step) && Solo(Next(p, m, step), k)
            && ViewStep(m, step, k) == e && View(Next(p, m, step), k) == KeyNext(p, View(m, k), e)
  {
    SoloView(m, k);
    var step := SoloStep(m, k, e);
    match e {
      case Arrive(v) =>
        UpsertSolo(p.merge, m.queue, k, v);
      case Depart =>
        var v :| m.queue == [(k, v)];
        LookupOfOne(k, v);
        assert m.queue[..|m.queue|] == m.queue && m.queue[|m.queue|..] == [];
      case Land =>
        var v :| m.flight == [[(k, v)]];
        LookupOfOne(k, v);
        assert m.flight[..0] + m.flight[1..] == [];
      case Return =>
        var v :| m.flight == [[(k, v)]];
        LookupOfOne(k, v);
        assert m.flight[..0] + m.flight[1..] == [];
        UpsertSolo(p.merge, m.queue, k, v);
        UpsertedOne(p.merge, m.queue, k, v);
    }
    StepProjects(p, m, step, k);
  }

  lemma ConsSteps<K(!new), V(!new), R(!new)>(
      p: Policy<V, R>, m: Machine<K, V, R>, step: Step<K, V>, rest: seq<Step<K, V>>, k: K)
    requires Enabled(m, step) && Legal(p, Next(p, m, step), rest)
    ensures Legal(p, m, [step] + rest) && Run(p, m, [step] + rest) == Run(p, Next(p, m, step), rest)
    ensures ViewRun(p, m, [step] + rest, k) == [ViewStep(m, step, k)] + ViewRun(p, Next(p, m, step), rest, k)
    ensures UpdatesOf([step] + rest, k)
            == (if step.Upsert? && step.key == k then [step.update] else []) + UpdatesOf(rest, k)
  {
    assert ([step] + rest)[0] == step && ([step] + rest)[1..] == rest;
  }

  /** Every run of one key is a run of a queue */
  lemma {:induction false} SoloRun<K(!new), V(!new), R(!new)>(
      p: Policy<V, R>, m: Machine<K, V, R>, k: K, es: seq<KeyStep<V>>)
    returns (steps: seq<Step<K, V>>)
    requires Solo(m, k) && KeyLegal(p, View(m, k), es) && Stay !in es
    ensures Legal(p, m, steps) && UpdatesOf(steps, k) == Arrivals(es) && ViewRun(p, m, steps, k) == es
    ensures View(Run(p, m, steps), k) == KeyRun(p, View(m, k), es)
    decreases |es|
  {
    steps := [];
    if es != [] {
      var step := SoloStep(m, k, es[0]);
      SoloStepRealises(p, m, k, es[0]);
      var rest := SoloRun(p, Next(p, m, step), k, es[1..]);
      steps := [step] + rest;
      ConsSteps(p, m, step, rest, k);
      assert es == [es[0]] + es[1..];
    }
  }
}
