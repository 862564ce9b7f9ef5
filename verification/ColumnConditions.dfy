/** What becomes of single columns over all runs of the flush protocol, for any policy: the exact conditions, on the
    updates alone, under which columns that are overwritten, recorded once, or set by the newest or the first update
    end up as they should. */
module ColumnConditions {
  import opened MachineInts
  import opened Results
  import opened Updates
  import opened FlushProtocol
  import opened KeyRuns
  import opened Schedules

  ghost predicate Stores<V, R, T>(column: R -> T, s: KeyState<V, R>, t: T) {
    s.stored.Some? && column(s.stored.value) == t
  }

  lemma FirstArrival<V>(es: seq<KeyStep<V>>)
    requires es != []
    ensures es[0].Arrive? ==> Arrivals(es) != [] && Arrivals(es)[0] == es[0].update && Arrivals(es)[1..] == Arrivals(es[1..])
    ensures !es[0].Arrive? ==> Arrivals(es) == Arrivals(es[1..])
  {
  }

  // ---- Fields that a merge takes from its second update ----

  ghost predicate TakesSecond<V(!new), T(!new)>(merge: (V, V) -> V, field: V -> T) {
    forall u, v :: field(merge(u, v)) == field(v)
  }

  lemma {:induction false} FieldAbsorbed<V(!new), T(!new)>(merge: (V, V) -> V, field: V -> T, q: V, h: seq<V>)
    requires TakesSecond(merge, field)
    ensures field(Absorbing(merge, q, h)) == field(Last([q] + h))
    decreases |h|
  {
    if h != [] {
      FieldAbsorbed(merge, field, merge(q, h[0]), h[1..]);
      assert Last([merge(q, h[0])] + h[1..]) == if |h| == 1 then merge(q, h[0]) else Last(h);
    }
  }

  lemma FieldPooled<V(!new), T(!new)>(merge: (V, V) -> V, field: V -> T, h: seq<V>)
    requires TakesSecond(merge, field) && h != []
    ensures field(Pooled(merge, h).value) == field(Last(h))
  {
    FieldAbsorbed(merge, field, h[0], h[1..]);
    assert [h[0]] + h[1..] == h;
  }

  /** After a batch came back, the field is that of the last update in it, whatever is newer */
  lemma FieldReturned<V(!new), T(!new)>(merge: (V, V) -> V, field: V -> T, h: seq<V>, i: nat)
    requires TakesSecond(merge, field) && i < |h|
    ensures field(Absorbed(merge, Pooled(merge, h[i + 1..]), Pooled(merge, h[..i + 1]).value).value) == field(h[i])
  {
    FieldPooled(merge, field, h[..i + 1]);
  }

  ghost predicate Holds<V, T>(field: V -> T, o: Option<V>, t: T) {
    o.Some? ==> field(o.value) == t
  }

  // ---- Columns that whatever lands last overwrites ----

  ghost predicate IsOverwritten<V(!new), R(!new), T(!new)>(p: Policy<V, R>, field: V -> T, column: R -> T) {
    TakesSecond(p.merge, field) && forall r, v :: column(p.apply(r, v)) == field(v)
  }

  /** The value is in the last place that holds anything */
  ghost predicate IsLatest<V, R, T>(field: V -> T, column: R -> T, s: KeyState<V, R>, t: T) {
    if s.queued.Some? then field(s.queued.value) == t
    else if s.flight.Some? then field(s.flight.value) == t
    else Stores(column, s, t)
  }

  ghost predicate AllHave<V, T>(field: V -> T, h: seq<V>, t: T) {
    forall i :: 0 <= i < |h| ==> field(h[i]) == t
  }

  lemma {:induction false} EqualValuesStay<V(!new), R(!new), T(!new)>(
      p: Policy<V, R>, field: V -> T, column: R -> T, s: KeyState<V, R>, es: seq<KeyStep<V>>, t: T)
    requires IsOverwritten(p, field, column) && KeyLegal(p, s, es) && AllHave(field, Arrivals(es), t)
    requires Holds(field, s.queued, t) && Holds(field, s.flight, t)
    requires Arrivals(es) == [] ==> IsLatest(field, column, s, t)
    ensures IsLatest(field, column, KeyRun(p, s, es), t)
    decreases |es|
  {
    if es != [] {
      FirstArrival(es);
      EqualValuesStay(p, field, column, KeyNext(p, s, es[0]), es[1..], t);
    }
  }

  lemma {:induction false} LatestStaysLatest<V(!new), R(!new), T(!new)>(
      p: Policy<V, R>, field: V -> T, column: R -> T, s: KeyState<V, R>, es: seq<KeyStep<V>>, t: T)
    requires IsOverwritten(p, field, column) && KeyLegal(p, s, es) && NoneReturnsBehind(p, s, es)
    requires if Arrivals(es) == [] then IsLatest(field, column, s, t) else field(Last(Arrivals(es))) == t
    ensures IsLatest(field, column, KeyRun(p, s, es), t)
    decreases |es|
  {
    if es != [] {
      FirstArrival(es);
      LatestStaysLatest(p, field, column, KeyNext(p, s, es[0]), es[1..], t);
    }
  }

  /** Every run that drains the updates `h` stores the value of the last one exactly if all of them have it. */
  lemma LastValueIff<V(!new), R(!new), T(!new)>(
      p: Policy<V, R>, field: V -> T, column: R -> T, s: KeyState<V, R>, h: seq<V>)
    requires IsOverwritten(p, field, column) && Drained(s) && h != []
    ensures (forall es :: IsDrainingRun(p, s, h, es) ==> Stores(column, KeyRun(p, s, es), field(Last(h))))
            <==> AllHave(field, h, field(Last(h)))
  {
    if AllHave(field, h, field(Last(h))) {
      forall es | IsDrainingRun(p, s, h, es) ensures Stores(column, KeyRun(p, s, es), field(Last(h))) {
        EqualValuesStay(p, field, column, s, es, field(Last(h)));
      }
    } else {
      var i :| 0 <= i < |h| && field(h[i]) != field(Last(h));
      FailingStores(p, field, column, s, h, i);
    }
  }

  lemma FailingStores<V(!new), R(!new), T(!new)>(
      p: Policy<V, R>, field: V -> T, column: R -> T, s: KeyState<V, R>, h: seq<V>, i: nat)
    requires IsOverwritten(p, field, column) && Drained(s) && i < |h|
    ensures IsDrainingRun(p, s, h, Failing(h, i)) && Stores(column, KeyRun(p, s, Failing(h, i)), field(h[i]))
  {
    FailingRun(p, s, h, i);
    FieldReturned(p.merge, field, h, i);
  }

  /** And it always does if no batch comes back behind something newer. */
  lemma LastValueInOrder<V(!new), R(!new), T(!new)>(
      p: Policy<V, R>, field: V -> T, column: R -> T, s: KeyState<V, R>, h: seq<V>, es: seq<KeyStep<V>>)
    requires IsOverwritten(p, field, column) && h != []
    requires IsDrainingRun(p, s, h, es) && NoneReturnsBehind(p, s, es)
    ensures Stores(column, KeyRun(p, s, es), field(Last(h)))
  {
    LatestStaysLatest(p, field, column, s, es, field(Last(h)));
  }

  // ---- Columns that are recorded once ----

  ghost predicate IsRecordedOnce<V(!new), R(!new), T(!new)>(
      p: Policy<V, R>, field: V -> Option<T>, column: R -> Option<T>) {
    && TakesSecond(p.merge, field)
    && forall r, v :: column(p.apply(r, v))
                      == if r.Some? && column(r.value).Some? then column(r.value) else field(v)
  }

  ghost predicate Records<V, R, T>(column: R -> Option<T>, s: KeyState<V, R>) {
    s.stored.Some? && column(s.stored.value).Some?
  }

  ghost predicate IsGiven<V, T>(field: V -> Option<T>, o: Option<V>) {
    o.Some? ==> field(o.value).Some?
  }

  ghost predicate AllGiven<V, T>(field: V -> Option<T>, h: seq<V>) {
    forall i :: 0 <= i < |h| ==> field(h[i]).Some?
  }

  /** What is recorded is recorded for good */
  lemma {:induction false} RecordedForGood<V(!new), R(!new), T(!new)>(
      p: Policy<V, R>, field: V -> Option<T>, column: R -> Option<T>, s: KeyState<V, R>, es: seq<KeyStep<V>>)
    requires IsRecordedOnce(p, field, column) && KeyLegal(p, s, es) && Records(column, s)
    ensures Stores(column, KeyRun(p, s, es), column(s.stored.value))
    decreases |es|
  {
    if es != [] {
      RecordedForGood(p, field, column, KeyNext(p, s, es[0]), es[1..]);
    }
  }

  ghost predicate IsBound<V, R, T>(field: V -> Option<T>, column: R -> Option<T>, s: KeyState<V, R>) {
    || Records(column, s)
    || (if s.queued.Some? then field(s.queued.value).Some? else s.flight.Some? && field(s.flight.value).Some?)
  }

  lemma {:induction false} GivenIsRecorded<V(!new), R(!new), T(!new)>(
      p: Policy<V, R>, field: V -> Option<T>, column: R -> Option<T>, s: KeyState<V, R>, es: seq<KeyStep<V>>)
    requires IsRecordedOnce(p, field, column) && KeyLegal(p, s, es) && AllGiven(field, Arrivals(es))
    requires IsGiven(field, s.queued) && IsGiven(field, s.flight)
    requires Arrivals(es) == [] ==> IsBound(field, column, s)
    ensures IsBound(field, column, KeyRun(p, s, es))
    decreases |es|
  {
    if es != [] {
      FirstArrival(es);
      GivenIsRecorded(p, field, column, KeyNext(p, s, es[0]), es[1..]);
    }
  }

  lemma {:induction false} LastGivenIsRecorded<V(!new), R(!new), T(!new)>(
      p: Policy<V, R>, field: V -> Option<T>, column: R -> Option<T>, s: KeyState<V, R>, es: seq<KeyStep<V>>)
    requires IsRecordedOnce(p, field, column) && KeyLegal(p, s, es) && NoneReturnsBehind(p, s, es)
    requires if Arrivals(es) == [] then IsBound(field, column, s) else field(Last(Arrivals(es))).Some?
    ensures IsBound(field, column, KeyRun(p, s, es))
    decreases |es|
  {
    if es != [] {
      FirstArrival(es);
      LastGivenIsRecorded(p, field, column, KeyNext(p, s, es[0]), es[1..]);
    }
  }

  /** From a row without it, every run that drains the updates `h` records something exactly if all of them give it. */
  lemma RecordedIff<V(!new), R(!new), T(!new)>(
      p: Policy<V, R>, field: V -> Option<T>, column: R -> Option<T>, s: KeyState<V, R>, h: seq<V>)
    requires IsRecordedOnce(p, field, column) && Drained(s) && !Records(column, s) && h != []
    ensures (forall es :: IsDrainingRun(p, s, h, es) ==> Records(column, KeyRun(p, s, es))) <==> AllGiven(field, h)
  {
    if AllGiven(field, h) {
      forall es | IsDrainingRun(p, s, h, es) ensures Records(column, KeyRun(p, s, es)) {
        GivenIsRecorded(p, field, column, s, es);
      }
    } else {
      var i :| 0 <= i < |h| && field(h[i]).None?;
      FailingRun(p, s, h, i);
      FieldReturned(p.merge, field, h, i);
    }
  }

  /** If no batch comes back behind something newer, exactly if the last one gives it; the same if none comes back. */
  lemma RecordedInOrderIff<V(!new), R(!new), T(!new)>(
      p: Policy<V, R>, field: V -> Option<T>, column: R -> Option<T>, s: KeyState<V, R>, h: seq<V>)
    requires IsRecordedOnce(p, field, column) && Drained(s) && !Records(column, s) && h != []
    ensures (forall es :: IsDrainingRun(p, s, h, es) && NoneReturnsBehind(p, s, es) ==> Records(column, KeyRun(p, s, es)))
            <==> field(Last(h)).Some?
    ensures (forall es :: IsDrainingRun(p, s, h, es) && Return !in es ==> Records(column, KeyRun(p, s, es)))
            <==> field(Last(h)).Some?
  {
    if field(Last(h)).Some? {
      forall es | IsDrainingRun(p, s, h, es) && NoneReturnsBehind(p, s, es) ensures Records(column, KeyRun(p, s, es)) {
        LastGivenIsRecorded(p, field, column, s, es);
      }
      forall es | IsDrainingRun(p, s, h, es) && Return !in es ensures NoneReturnsBehind(p, s, es) {
        WithoutReturns(p, s, es);
      }
    } else {
      LazyRun(p, s, h);
      FieldPooled(p.merge, field, h);
      SchedulesMove(h);
    }
  }

  // ---- Times of the newest update ----

  ghost predicate IsNewestTime<V(!new), R(!new)>(p: Policy<V, R>, time: V -> Time, column: R -> Time) {
    && (forall u, v :: time(p.merge(u, v)) == Max(time(u), time(v)))
    && (forall r, v :: column(p.apply(r, v)) == time(v))
  }

  ghost predicate GoesBack<V, R>(time: V -> Time, column: R -> Time, s: KeyState<V, R>, e: KeyStep<V>) {
    e.Land? && s.flight.Some? && s.stored.Some? && time(s.flight.value) < column(s.stored.value)
  }

  ghost predicate NeverGoesBack<V, R>(
      p: Policy<V, R>, time: V -> Time, column: R -> Time, s: KeyState<V, R>, es: seq<KeyStep<V>>)
    requires KeyLegal(p, s, es)
    decreases |es|
  {
    es == [] || (!GoesBack(time, column, s, es[0]) && NeverGoesBack(p, time, column, KeyNext(p, s, es[0]), es[1..]))
  }

  ghost function TimeOf<X>(time: X -> Time, o: Option<X>): Option<Time> {
    match o case Some(x) => Some(time(x)) case None => None
  }

  /** From the given time on, no update is older than the one before it */
  ghost predicate TimesNeverFall<V>(time: V -> Time, from: Option<Time>, h: seq<V>)
    decreases |h|
  {
    h == [] || ((from.Some? ==> from.value <= time(h[0])) && TimesNeverFall(time, Some(time(h[0])), h[1..]))
  }

  ghost predicate NotAfter(o: Option<Time>, t: Option<Time>) {
    o.Some? ==> t.Some? && o.value <= t.value
  }

  /** Stored, in flight, queued: in order of time, and none after the latest */
  ghost predicate InOrder<V, R>(time: V -> Time, column: R -> Time, s: KeyState<V, R>, latest: Option<Time>) {
    var stored, flight, queued := TimeOf(column, s.stored), TimeOf(time, s.flight), TimeOf(time, s.queued);
    && NotAfter(stored, latest) && NotAfter(flight, latest) && NotAfter(queued, latest)
    && (flight.Some? ==> NotAfter(stored, flight))
    && (queued.Some? ==> NotAfter(stored, queued) && NotAfter(flight, queued))
  }

  lemma {:induction false} NeverBackOverRun<V(!new), R(!new)>(
      p: Policy<V, R>, time: V -> Time, column: R -> Time, s: KeyState<V, R>, es: seq<KeyStep<V>>, latest: Option<Time>)
    requires IsNewestTime(p, time, column) && KeyLegal(p, s, es)
    requires InOrder(time, column, s, latest) && TimesNeverFall(time, latest, Arrivals(es))
    ensures NeverGoesBack(p, time, column, s, es)
    decreases |es|
  {
    if es != [] {
      FirstArrival(es);
      var latest' := if es[0].Arrive? then Some(time(es[0].update)) else latest;
      NeverBackOverRun(p, time, column, KeyNext(p, s, es[0]), es[1..], latest');
    }
  }

  lemma Peel<V(!new), R(!new)>(
      p: Policy<V, R>, time: V -> Time, column: R -> Time, s: KeyState<V, R>, e: KeyStep<V>, rest: seq<KeyStep<V>>)
    requires KeyLegal(p, s, [e] + rest) && NeverGoesBack(p, time, column, s, [e] + rest)
    ensures KeyEnabled(s, e) && !GoesBack(time, column, s, e) && KeyLegal(p, KeyNext(p, s, e), rest)
    ensures NeverGoesBack(p, time, column, KeyNext(p, s, e), rest)
  {
    assert ([e] + rest)[0] == e && ([e] + rest)[1..] == rest;
  }

  lemma PeelFlush<V(!new), R(!new)>(
      p: Policy<V, R>, time: V -> Time, column: R -> Time, s: KeyState<V, R>, v: V, rest: seq<KeyStep<V>>)
    requires Drained(s) && KeyLegal(p, s, [Arrive(v), Depart, Land] + rest)
    requires NeverGoesBack(p, time, column, s, [Arrive(v), Depart, Land] + rest)
    ensures var s' := KeyState(None, None, Some(p.apply(s.stored, v)));
            && KeyLegal(p, s', rest) && NeverGoesBack(p, time, column, s', rest)
            && (s.stored.Some? ==> column(s.stored.value) <= time(v))
  {
    assert [Arrive(v), Depart, Land] + rest == [Arrive(v)] + ([Depart] + ([Land] + rest));
    Peel(p, time, column, s, Arrive(v), [Depart] + ([Land] + rest));
    var s1 := KeyNext(p, s, Arrive(v));
    Peel(p, time, column, s1, Depart, [Land] + rest);
    Peel(p, time, column, KeyNext(p, s1, Depart), Land, rest);
  }

  lemma {:induction false} EagerGoesBack<V(!new), R(!new)>(
      p: Policy<V, R>, time: V -> Time, column: R -> Time, s: KeyState<V, R>, h: seq<V>)
    requires IsNewestTime(p, time, column) && Drained(s)
    requires KeyLegal(p, s, Eager(h)) && NeverGoesBack(p, time, column, s, Eager(h))
    ensures TimesNeverFall(time, TimeOf(column, s.stored), h)
    decreases |h|
  {
    if h != [] {
      PeelFlush(p, time, column, s, h[0], Eager(h[1..]));
      EagerGoesBack(p, time, column, KeyState(None, None, Some(p.apply(s.stored, h[0]))), h[1..]);
    }
  }

  /** No run that takes in the updates `h` ever puts the row back in time exactly if their times, from the row on, never
      fall. */
  lemma NeverGoesBackIff<V(!new), R(!new)>(
      p: Policy<V, R>, time: V -> Time, column: R -> Time, s: KeyState<V, R>, h: seq<V>)
    requires IsNewestTime(p, time, column) && Drained(s)
    ensures (forall es :: KeyLegal(p, s, es) && Arrivals(es) == h ==> NeverGoesBack(p, time, column, s, es))
            <==> TimesNeverFall(time, TimeOf(column, s.stored), h)
  {
    var from := TimeOf(column, s.stored);
    if TimesNeverFall(time, from, h) {
      forall es | KeyLegal(p, s, es) && Arrivals(es) == h ensures NeverGoesBack(p, time, column, s, es) {
        NeverBackOverRun(p, time, column, s, es, from);
      }
    } else {
      EagerRun(p, s, h);
      if NeverGoesBack(p, time, column, s, Eager(h)) {
        EagerGoesBack(p, time, column, s, h);
      }
    }
  }

  // ---- Times of the first update ----

  ghost predicate IsFirstTime<V(!new), R(!new)>(p: Policy<V, R>, time: V -> Time, column: R -> Time) {
    && (forall u, v :: time(p.merge(u, v)) == Min(time(u), time(v)))
    && (forall r, v :: column(p.apply(r, v)) == if r.Some? then column(r.value) else time(v))
  }

  /** A row keeps its first time for good */
  lemma {:induction false} FirstTimeForGood<V(!new), R(!new)>(
      p: Policy<V, R>, time: V -> Time, column: R -> Time, s: KeyState<V, R>, es: seq<KeyStep<V>>)
    requires IsFirstTime(p, time, column) && KeyLegal(p, s, es) && s.stored.Some?
    ensures Stores(column, KeyRun(p, s, es), column(s.stored.value))
    decreases |es|
  {
    if es != [] {
      FirstTimeForGood(p, time, column, KeyNext(p, s, es[0]), es[1..]);
    }
  }

  predicate IsNothing<V, R>(s: KeyState<V, R>) {
    s.queued.None? && s.flight.None? && s.stored.None?
  }

  /** The time is in the first place that holds anything, and nothing is earlier */
  ghost predicate IsFirst<V, R>(time: V -> Time, column: R -> Time, s: KeyState<V, R>, t: Time) {
    if s.stored.Some? then column(s.stored.value) == t
    else if s.flight.Some? then time(s.flight.value) == t && (s.queued.Some? ==> t <= time(s.queued.value))
    else s.queued.Some? ==> time(s.queued.value) == t
  }

  ghost predicate NoneBefore<V>(time: V -> Time, h: seq<V>, t: Time) {
    forall i :: 0 <= i < |h| ==> t <= time(h[i])
  }

  lemma FirstAfterStep<V(!new), R(!new)>(
      p: Policy<V, R>, time: V -> Time, column: R -> Time, s: KeyState<V, R>, e: KeyStep<V>, t: Time)
    requires IsFirstTime(p, time, column) && KeyEnabled(s, e) && IsFirst(time, column, s, t)
    requires e.Arrive? ==> t <= time(e.update) && (IsNothing(s) ==> time(e.update) == t)
    ensures IsFirst(time, column, KeyNext(p, s, e), t)
    ensures IsNothing(KeyNext(p, s, e)) <==> IsNothing(s) && !e.Arrive?
  {
  }

  lemma NoneBeforeTail<V>(time: V -> Time, es: seq<KeyStep<V>>, t: Time)
    requires es != [] && NoneBefore(time, Arrivals(es), t)
    ensures NoneBefore(time, Arrivals(es[1..]), t)
    ensures es[0].Arrive? ==> t <= time(es[0].update)
  {
    FirstArrival(es);
    if es[0].Arrive? {
      var all := Arrivals(es);
      forall i | 0 <= i < |all[1..]| ensures t <= time(all[1..][i]) {
        assert all[1..][i] == all[i + 1];
      }
      assert t <= time(all[0]);
    }
  }

  lemma {:induction false} FirstStaysFirst<V(!new), R(!new)>(
      p: Policy<V, R>, time: V -> Time, column: R -> Time, s: KeyState<V, R>, es: seq<KeyStep<V>>, t: Time)
    requires IsFirstTime(p, time, column) && KeyLegal(p, s, es)
    requires IsFirst(time, column, s, t) && NoneBefore(time, Arrivals(es), t)
    requires IsNothing(s) && Arrivals(es) != [] ==> time(Arrivals(es)[0]) == t
    ensures IsFirst(time, column, KeyRun(p, s, es), t)
    ensures IsNothing(KeyRun(p, s, es)) ==> IsNothing(s) && Arrivals(es) == []
    decreases |es|
  {
    if es != [] {
      FirstArrival(es);
      NoneBeforeTail(time, es, t);
      FirstAfterStep(p, time, column, s, es[0], t);
      FirstStaysFirst(p, time, column, KeyNext(p, s, es[0]), es[1..], t);
    }
  }

  lemma {:induction false} AbsorbedTime<V(!new), R(!new)>(
      p: Policy<V, R>, time: V -> Time, column: R -> Time, q: V, h: seq<V>)
    requires IsFirstTime(p, time, column)
    ensures time(Absorbing(p.merge, q, h)) <= time(q) && NoneBefore(time, h, time(Absorbing(p.merge, q, h)))
    decreases |h|
  {
    if h != [] {
      AbsorbedTime(p, time, column, p.merge(q, h[0]), h[1..]);
      var t := time(Absorbing(p.merge, q, h));
      forall i | 0 <= i < |h| ensures t <= time(h[i]) {
        if i > 0 {
          assert h[i] == h[1..][i - 1];
        }
      }
    }
  }

  /** Without a row, every run that drains the updates `h` stores the time of the first one exactly if none is earlier. */
  lemma FirstTimeIff<V(!new), R(!new)>(
      p: Policy<V, R>, time: V -> Time, column: R -> Time, s: KeyState<V, R>, h: seq<V>)
    requires IsFirstTime(p, time, column) && IsNothing(s) && h != []
    ensures (forall es :: IsDrainingRun(p, s, h, es) ==> Stores(column, KeyRun(p, s, es), time(h[0])))
            <==> NoneBefore(time, h, time(h[0]))
  {
    if NoneBefore(time, h, time(h[0])) {
      forall es | IsDrainingRun(p, s, h, es) ensures Stores(column, KeyRun(p, s, es), time(h[0])) {
        FirstStaysFirst(p, time, column, s, es, time(h[0]));
      }
    } else {
      var i :| 0 <= i < |h| && time(h[i]) < time(h[0]);
      LazyRun(p, s, h);
      AbsorbedTime(p, time, column, h[0], h[1..]);
      assert h[i] == h[1..][i - 1];
    }
  }

  // ---- Flags that are lost for good, and that a merge takes from its first update ----

  ghost predicate IsLatched<V(!new), R(!new)>(p: Policy<V, R>, flag: V -> bool, column: R -> bool) {
    && (forall u, v :: flag(p.merge(u, v)) == flag(u))
    && forall r, v :: column(p.apply(r, v)) == ((r.Some? ==> column(r.value)) && flag(v))
  }

  ghost predicate IsLost<V, R>(column: R -> bool, s: KeyState<V, R>) {
    s.stored.Some? && !column(s.stored.value)
  }

  ghost predicate NoneHas<V>(flag: V -> bool, h: seq<V>) {
    forall i :: 0 <= i < |h| ==> !flag(h[i])
  }

  /** Lost already, or about to be: the first place that holds an update does not have the flag */
  ghost predicate IsLosing<V, R>(flag: V -> bool, column: R -> bool, s: KeyState<V, R>) {
    || IsLost(column, s)
    || (if s.flight.Some? then !flag(s.flight.value) else s.queued.Some? && !flag(s.queued.value))
  }

  lemma {:induction false} UnflaggedIsLost<V(!new), R(!new)>(
      p: Policy<V, R>, flag: V -> bool, column: R -> bool, s: KeyState<V, R>, es: seq<KeyStep<V>>)
    requires IsLatched(p, flag, column) && KeyLegal(p, s, es) && NoneHas(flag, Arrivals(es))
    requires (s.queued.Some? ==> !flag(s.queued.value)) && (s.flight.Some? ==> !flag(s.flight.value))
    requires Arrivals(es) == [] ==> IsLosing(flag, column, s)
    ensures IsLosing(flag, column, KeyRun(p, s, es))
    decreases |es|
  {
    if es != [] {
      FirstArrival(es);
      UnflaggedIsLost(p, flag, column, KeyNext(p, s, es[0]), es[1..]);
    }
  }

  lemma {:induction false} FirstUnflaggedIsLost<V(!new), R(!new)>(
      p: Policy<V, R>, flag: V -> bool, column: R -> bool, s: KeyState<V, R>, es: seq<KeyStep<V>>)
    requires IsLatched(p, flag, column) && KeyLegal(p, s, es) && NoneReturnsBehind(p, s, es)
    requires IsLosing(flag, column, s) || (Drained(s) && Arrivals(es) != [] && !flag(Arrivals(es)[0]))
    ensures IsLosing(flag, column, KeyRun(p, s, es))
    decreases |es|
  {
    if es != [] {
      FirstArrival(es);
      FirstUnflaggedIsLost(p, flag, column, KeyNext(p, s, es[0]), es[1..]);
    }
  }

  lemma {:induction false} FlagAbsorbed<V(!new)>(merge: (V, V) -> V, flag: V -> bool, q: V, h: seq<V>)
    requires forall u, v :: flag(merge(u, v)) == flag(u)
    ensures flag(Absorbing(merge, q, h)) == flag(q)
    decreases |h|
  {
    if h != [] {
      FlagAbsorbed(merge, flag, merge(q, h[0]), h[1..]);
    }
  }

  /** From a row that has the flag, or none, every run that drains the updates `h` loses it exactly if none of them has
      it; and every run in which no batch comes back behind something newer, exactly if the first one lacks it. */
  lemma LostIff<V(!new), R(!new)>(p: Policy<V, R>, flag: V -> bool, column: R -> bool, s: KeyState<V, R>, h: seq<V>)
    requires IsLatched(p, flag, column) && Drained(s) && !IsLost(column, s) && h != []
    ensures (forall es :: IsDrainingRun(p, s, h, es) ==> IsLost(column, KeyRun(p, s, es))) <==> NoneHas(flag, h)
    ensures (forall es :: IsDrainingRun(p, s, h, es) && NoneReturnsBehind(p, s, es) ==> IsLost(column, KeyRun(p, s, es)))
            <==> !flag(h[0])
  {
    LazyKeepsFlag(p, flag, column, s, h);
    if NoneHas(flag, h) {
      forall es | IsDrainingRun(p, s, h, es) ensures IsLost(column, KeyRun(p, s, es)) {
        UnflaggedIsLost(p, flag, column, s, es);
      }
    } else {
      var i :| 0 <= i < |h| && flag(h[i]);
      if i > 0 {
        FailingKeepsFlag(p, flag, column, s, h, i);
      }
    }
    if !flag(h[0]) {
      forall es | IsDrainingRun(p, s, h, es) && NoneReturnsBehind(p, s, es) ensures IsLost(column, KeyRun(p, s, es)) {
        FirstUnflaggedIsLost(p, flag, column, s, es);
      }
    }
  }

  lemma LazyKeepsFlag<V(!new), R(!new)>(
      p: Policy<V, R>, flag: V -> bool, column: R -> bool, s: KeyState<V, R>, h: seq<V>)
    requires IsLatched(p, flag, column) && Drained(s) && !IsLost(column, s) && h != []
    ensures IsDrainingRun(p, s, h, Lazy(h)) && NoneReturnsBehind(p, s, Lazy(h))
    ensures IsLost(column, KeyRun(p, s, Lazy(h))) <==> !flag(h[0])
  {
    LazyRun(p, s, h);
    FlagAbsorbed(p.merge, flag, h[0], h[1..]);
  }

  lemma FailingKeepsFlag<V(!new), R(!new)>(
      p: Policy<V, R>, flag: V -> bool, column: R -> bool, s: KeyState<V, R>, h: seq<V>, i: nat)
    requires IsLatched(p, flag, column) && Drained(s) && !IsLost(column, s) && 0 < i < |h| && flag(h[i])
    ensures IsDrainingRun(p, s, h, Failing(h, i - 1)) && !IsLost(column, KeyRun(p, s, Failing(h, i - 1)))
  {
    FailingRun(p, s, h, i - 1);
    FlagAbsorbed(p.merge, flag, h[i..][0], h[i..][1..]);
  }
}
