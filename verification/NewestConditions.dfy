/** When the newest announce of a peer wins: the exact conditions, on the announces alone, under which every run of the
    flush protocol ends with the last announce stored, and under which no run ever makes the stored row go back in
    time. */
module NewestConditions {
  import opened MachineInts
  import opened Results
  import opened FlushProtocol
  import opened Updates
  import opened KeyRuns
  import opened Schedules
  import opened ColumnConditions

  type PeerState = KeyState<PeerUpdate, PeerUpdate>
  type PeerStep = KeyStep<PeerUpdate>

  /** The same announce, whenever its peer was first seen */
  predicate Same(u: PeerUpdate, v: PeerUpdate) {
    u.(createdAt := v.createdAt) == v
  }

  /** Every announce is older than the last one, or no different from it */
  ghost predicate LastIsNewest(h: seq<PeerUpdate>)
    requires h != []
  {
    forall i :: 0 <= i < |h| ==> h[i].updatedAt < Last(h).updatedAt || Same(h[i], Last(h))
  }

  ghost predicate StoresLast(s: PeerState, h: seq<PeerUpdate>)
    requires h != []
  {
    s.stored.Some? && Same(s.stored.value, Last(h))
  }

  // ---- The last announce ----

  /** The record is one of these announces */
  ghost predicate Known(h: seq<PeerUpdate>, o: Option<PeerUpdate>) {
    o.Some? ==> exists i :: 0 <= i < |h| && Same(h[i], o.value)
  }

  /** The announce is in the last place that holds anything */
  predicate Latest(v: PeerUpdate, s: PeerState) {
    if s.queued.Some? then Same(s.queued.value, v)
    else if s.flight.Some? then Same(s.flight.value, v)
    else s.stored.Some? && Same(s.stored.value, v)
  }

  /** Of the announces `h`, the first ones `g` have arrived */
  ghost predicate Arrived(h: seq<PeerUpdate>, g: seq<PeerUpdate>, s: PeerState)
    requires h != []
  {
    g <= h && Known(g, s.queued) && Known(g, s.flight) && (g == h ==> Latest(Last(h), s))
  }

  lemma KnownGrows(g: seq<PeerUpdate>, v: PeerUpdate, o: Option<PeerUpdate>)
    requires Known(g, o) || o == Some(v)
    ensures Known(g + [v], o)
  {
    var g' := g + [v];
    if o == Some(v) {
      assert Same(g'[|g|], v);
    } else if o.Some? {
      var i :| 0 <= i < |g| && Same(g[i], o.value);
      assert g'[i] == g[i];
    }
  }

  lemma MergeIsOneOfThem(g: seq<PeerUpdate>, u: PeerUpdate, v: PeerUpdate)
    requires Known(g, Some(u)) && Known(g, Some(v))
    ensures Known(g, Some(MergedPeerUpdate(u, v)))
  {
    var i :| 0 <= i < |g| && Same(g[i], u);
    var j :| 0 <= j < |g| && Same(g[j], v);
    if v.updatedAt > u.updatedAt {
      assert Same(g[j], MergedPeerUpdate(u, v));
    } else {
      assert Same(g[i], MergedPeerUpdate(u, v));
    }
  }

  lemma OlderOrSame(h: seq<PeerUpdate>, u: PeerUpdate)
    requires h != [] && LastIsNewest(h) && Known(h, Some(u))
    ensures u.updatedAt < Last(h).updatedAt || Same(u, Last(h))
  {
    var i :| 0 <= i < |h| && Same(h[i], u);
  }

  lemma ArrivedAfterArrival(h: seq<PeerUpdate>, g: seq<PeerUpdate>, s: PeerState, v: PeerUpdate)
    requires h != [] && LastIsNewest(h) && Arrived(h, g, s) && g + [v] <= h
    ensures Arrived(h, g + [v], KeyNext(PeerPolicy(), s, Arrive(v)))
  {
    var g' := g + [v];
    var s' := KeyNext(PeerPolicy(), s, Arrive(v));
    KnownGrows(g, v, s.flight);
    KnownGrows(g, v, Some(v));
    if s.queued.Some? {
      KnownGrows(g, v, s.queued);
      MergeIsOneOfThem(g', s.queued.value, v);
    }
    if g' == h && s.queued.Some? {
      OlderOrSame(h, s.queued.value);
    }
  }

  lemma ArrivedAfterReturn(h: seq<PeerUpdate>, g: seq<PeerUpdate>, s: PeerState)
    requires h != [] && LastIsNewest(h) && Arrived(h, g, s) && s.flight.Some?
    ensures Arrived(h, g, KeyNext(PeerPolicy(), s, Return))
  {
    if s.queued.Some? {
      MergeIsOneOfThem(g, s.queued.value, s.flight.value);
      if g == h {
        OlderOrSame(h, s.flight.value);
      }
    }
  }

  lemma {:induction false} ArrivedOverRun(h: seq<PeerUpdate>, g: seq<PeerUpdate>, s: PeerState, es: seq<PeerStep>)
    requires h != [] && LastIsNewest(h) && Arrived(h, g, s) && KeyLegal(PeerPolicy(), s, es)
    requires g + Arrivals(es) == h
    ensures Latest(Last(h), KeyRun(PeerPolicy(), s, es))
    decreases |es|
  {
    if es == [] {
      assert g + [] == g;
    } else {
      var s' := KeyNext(PeerPolicy(), s, es[0]);
      match es[0]
      case Arrive(v) =>
        assert Arrivals(es) == [v] + Arrivals(es[1..]);
        assert g + ([v] + Arrivals(es[1..])) == (g + [v]) + Arrivals(es[1..]);
        assert h[..|g + [v]|] == g + [v];
        ArrivedAfterArrival(h, g, s, v);
        ArrivedOverRun(h, g + [v], s', es[1..]);
      case Return =>
        ArrivedAfterReturn(h, g, s);
        ArrivedOverRun(h, g, s', es[1..]);
      case _ =>
        assert Arrivals(es) == Arrivals(es[1..]);
        ArrivedOverRun(h, g, s', es[1..]);
    }
  }

  lemma NewestIsStored(s: PeerState, h: seq<PeerUpdate>, es: seq<PeerStep>)
    requires Drained(s) && h != [] && LastIsNewest(h) && IsDrainingRun(PeerPolicy(), s, h, es)
    ensures StoresLast(KeyRun(PeerPolicy(), s, es), h)
  {
    assert [] + Arrivals(es) == h;
    ArrivedOverRun(h, [], s, es);
  }

  /** What a queued record becomes is as new as all it absorbs, and still that record unless something newer came */
  lemma {:induction false} AbsorbingKeeps(q: PeerUpdate, h: seq<PeerUpdate>)
    ensures q.updatedAt <= Absorbing(PeerPolicy().merge, q, h).updatedAt
    ensures Absorbing(PeerPolicy().merge, q, h).updatedAt == q.updatedAt ==> Same(Absorbing(PeerPolicy().merge, q, h), q)
    decreases |h|
  {
    if h != [] {
      AbsorbingKeeps(MergedPeerUpdate(q, h[0]), h[1..]);
    }
  }

  /** The schedule that stores something else: everything before the `i`th announce is flushed, and the rest meets in
      the queue. */
  function Losing(h: seq<PeerUpdate>, i: nat): seq<PeerStep>
    requires i < |h|
  {
    Eager(h[..i]) + Lazy(h[i..])
  }

  lemma LosingRun(s: PeerState, h: seq<PeerUpdate>, i: nat)
    requires Drained(s) && i < |h|
    requires !(h[i].updatedAt < Last(h).updatedAt) && !Same(h[i], Last(h))
    ensures IsDrainingRun(PeerPolicy(), s, h, Losing(h, i))
    ensures !StoresLast(KeyRun(PeerPolicy(), s, Losing(h, i)), h)
  {
    var p, front, rest := PeerPolicy(), h[..i], h[i..];
    EagerRun(p, s, front);
    var mid := KeyRun(p, s, Eager(front));
    LazyRun(p, mid, rest);
    JoinRuns(p, s, Eager(front), Lazy(rest));
    assert front + rest == h && rest[0] == h[i];
    OvertakenByFirst(h[i], rest[1..], Last(h), mid.stored);
  }

  /** A record that is no older than `last`, and different, does not become `last` in the queue */
  lemma OvertakenByFirst(q: PeerUpdate, h: seq<PeerUpdate>, last: PeerUpdate, stored: Option<PeerUpdate>)
    requires q.updatedAt >= last.updatedAt && !Same(q, last)
    ensures !Same(AppliedPeerUpdate(stored, Absorbing(PeerPolicy().merge, q, h)), last)
  {
    AbsorbingKeeps(q, h);
  }

  /** Every run that drains the announces of a peer stores the last of them exactly if that one is newer than all
      others that differ from it. */
  lemma LastIsStoredIff(s: PeerState, h: seq<PeerUpdate>)
    requires Drained(s) && h != []
    ensures (forall es :: IsDrainingRun(PeerPolicy(), s, h, es) ==> StoresLast(KeyRun(PeerPolicy(), s, es), h))
            <==> LastIsNewest(h)
  {
    if LastIsNewest(h) {
      forall es | IsDrainingRun(PeerPolicy(), s, h, es) ensures StoresLast(KeyRun(PeerPolicy(), s, es), h) {
        NewestIsStored(s, h, es);
      }
    } else {
      var i :| 0 <= i < |h| && !(h[i].updatedAt < Last(h).updatedAt || Same(h[i], Last(h)));
      LosingRun(s, h, i);
    }
  }

  // ---- The stored times ----

  function PeerTime(): PeerUpdate -> Time {
    (v: PeerUpdate) => v.updatedAt
  }

  function PeerCreation(): PeerUpdate -> Time {
    (v: PeerUpdate) => v.createdAt
  }

  lemma PeerTimes()
    ensures IsNewestTime(PeerPolicy(), PeerTime(), PeerTime())
    ensures IsFirstTime(PeerPolicy(), PeerCreation(), PeerCreation())
  {
    var p := PeerPolicy();
    forall u, v
      ensures PeerTime()(p.merge(u, v)) == Max(u.updatedAt, v.updatedAt)
      ensures PeerCreation()(p.merge(u, v)) == Min(u.createdAt, v.createdAt)
    {
      assert p.merge(u, v) == MergedPeerUpdate(u, v);
    }
    forall r, v
      ensures PeerTime()(p.apply(r, v)) == v.updatedAt
      ensures PeerCreation()(p.apply(r, v)) == if r.Some? then r.value.createdAt else v.createdAt
    {
      assert p.apply(r, v) == AppliedPeerUpdate(r, v);
    }
  }

  ghost predicate TimesInOrder(stored: Option<PeerUpdate>, h: seq<PeerUpdate>) {
    TimesNeverFall(PeerTime(), TimeOf(PeerTime(), stored), h)
  }

  ghost predicate RowNeverGoesBack(s: PeerState, es: seq<PeerStep>)
    requires KeyLegal(PeerPolicy(), s, es)
  {
    NeverGoesBack(PeerPolicy(), PeerTime(), PeerTime(), s, es)
  }

  /** No run that takes in the announces of a peer ever makes its stored row go back in time exactly if their times,
      from the row on, never fall. */
  lemma StoredTimeNeverFallsIff(s: PeerState, h: seq<PeerUpdate>)
    requires Drained(s)
    ensures (forall es :: KeyLegal(PeerPolicy(), s, es) && Arrivals(es) == h ==> RowNeverGoesBack(s, es))
            <==> TimesInOrder(s.stored, h)
  {
    PeerTimes();
    NeverGoesBackIff(PeerPolicy(), PeerTime(), PeerTime(), s, h);
    assert forall es :: KeyLegal(PeerPolicy(), s, es) ==>
        (RowNeverGoesBack(s, es) <==> NeverGoesBack(PeerPolicy(), PeerTime(), PeerTime(), s, es));
  }

  /** Every run that drains the announces of a new peer stores the creation time of the first exactly if none is
      earlier. */
  lemma PeerCreationIff(s: PeerState, h: seq<PeerUpdate>)
    requires IsNothing(s) && h != []
    ensures (forall es :: IsDrainingRun(PeerPolicy(), s, h, es) ==>
               Stores(PeerCreation(), KeyRun(PeerPolicy(), s, es), h[0].createdAt))
            <==> NoneBefore(PeerCreation(), h, h[0].createdAt)
  {
    PeerTimes();
    FirstTimeIff(PeerPolicy(), PeerCreation(), PeerCreation(), s, h);
  }

  /** Of two different announces at one time, which one is stored depends on when the queue is flushed: the first, if
      they meet in the queue, and the second, if a flush comes between them. */
  lemma EqualTimesDependOnFlushes(s: PeerState, u: PeerUpdate, v: PeerUpdate)
    requires Drained(s) && u.updatedAt == v.updatedAt
    ensures IsDrainingRun(PeerPolicy(), s, [u, v], Lazy([u, v])) && IsDrainingRun(PeerPolicy(), s, [u, v], Eager([u, v]))
    ensures StoresLast(KeyRun(PeerPolicy(), s, Lazy([u, v])), [v, u])
    ensures StoresLast(KeyRun(PeerPolicy(), s, Eager([u, v])), [u, v])
  {
    LazyRun(PeerPolicy(), s, [u, v]);
    assert [u, v][1..] == [v] && [v][1..] == [];
    AbsorbingKeeps(u, [v]);
    assert Absorbing(PeerPolicy().merge, u, [v]) == MergedPeerUpdate(u, v);
    EagerRun(PeerPolicy(), s, [u, v]);
    EagerStores(s, [u], v);
    assert [u] + [v] == [u, v];
  }

  lemma {:induction false} EagerStores(s: PeerState, front: seq<PeerUpdate>, v: PeerUpdate)
    requires Drained(s)
    ensures KeyLegal(PeerPolicy(), s, Eager(front + [v]))
    ensures StoresLast(KeyRun(PeerPolicy(), s, Eager(front + [v])), front + [v])
    decreases |front|
  {
    var p, h := PeerPolicy(), front + [v];
    EagerRun(p, s, h);
    FlushedAtOnce(p, s, h[0]);
    var s' := KeyState(None, None, Some(AppliedPeerUpdate(s.stored, h[0])));
    EagerRun(p, s', h[1..]);
    JoinRuns(p, s, [Arrive(h[0]), Depart, Land], Eager(h[1..]));
    if front == [] {
      assert h[1..] == [];
    } else {
      assert h[1..] == front[1..] + [v];
      EagerStores(s', front[1..], v);
    }
  }

  // ---- The same for the queue as a whole ----

  /** Under any flushes and failures, for every peer: once drained, its row is its last announce, if that is the
      newest. */
  lemma QueueStoresNewest<K(!new)>(
      m: Machine<K, PeerUpdate, PeerUpdate>, steps: seq<Step<K, PeerUpdate>>, k: K)
    requires WellFormed(m) && Legal(PeerPolicy(), m, steps) && Drained(View(m, k))
    requires UpdatesOf(steps, k) != [] && LastIsNewest(UpdatesOf(steps, k))
    requires Drained(View(Run(PeerPolicy(), m, steps), k))
    ensures StoresLast(View(Run(PeerPolicy(), m, steps), k), UpdatesOf(steps, k))
  {
    RunProjects(PeerPolicy(), m, steps, k);
    NewestIsStored(View(m, k), UpdatesOf(steps, k), ViewRun(PeerPolicy(), m, steps, k));
  }

  /** And its row never goes back in time, if the times of its announces never fall */
  lemma QueueNeverGoesBack<K(!new)>(
      m: Machine<K, PeerUpdate, PeerUpdate>, steps: seq<Step<K, PeerUpdate>>, k: K)
    requires WellFormed(m) && Legal(PeerPolicy(), m, steps) && Drained(View(m, k))
    requires TimesInOrder(View(m, k).stored, UpdatesOf(steps, k))
    ensures KeyLegal(PeerPolicy(), View(m, k), ViewRun(PeerPolicy(), m, steps, k))
    ensures RowNeverGoesBack(View(m, k), ViewRun(PeerPolicy(), m, steps, k))
  {
    RunProjects(PeerPolicy(), m, steps, k);
    StoredTimeNeverFallsIff(View(m, k), UpdatesOf(steps, k));
  }

  /** If the last announce is not the newest, there are flushes, none of which fails, after which another one is
      stored. */
  lemma QueueMayStoreAnother<K(!new)>(db: map<K, PeerUpdate>, k: K, h: seq<PeerUpdate>)
    returns (steps: seq<Step<K, PeerUpdate>>)
    requires h != [] && !LastIsNewest(h)
    ensures var m := Machine([], [], db);
            && Legal(PeerPolicy(), m, steps) && UpdatesOf(steps, k) == h
            && Drained(View(Run(PeerPolicy(), m, steps), k)) && !StoresLast(View(Run(PeerPolicy(), m, steps), k), h)
            && Return !in ViewRun(PeerPolicy(), m, steps, k)
  {
    var m: Machine<K, PeerUpdate, PeerUpdate> := Machine([], [], db);
    SoloView(m, k);
    var i :| 0 <= i < |h| && !(h[i].updatedAt < Last(h).updatedAt || Same(h[i], Last(h)));
    LosingRun(View(m, k), h, i);
    SchedulesMove(h[..i]);
    SchedulesMove(h[i..]);
    steps := SoloRun(PeerPolicy(), m, k, Losing(h, i));
  }

  /** If the announces do not come in order of time, there are flushes, none of which fails, in which the stored row
      goes back in time. */
  lemma QueueMayGoBack<K(!new)>(db: map<K, PeerUpdate>, k: K, h: seq<PeerUpdate>)
    returns (steps: seq<Step<K, PeerUpdate>>)
    requires !TimesInOrder(RowOf(db, k), h)
    ensures var m := Machine([], [], db);
            && Legal(PeerPolicy(), m, steps) && UpdatesOf(steps, k) == h
            && KeyLegal(PeerPolicy(), View(m, k), ViewRun(PeerPolicy(), m, steps, k))
            && !RowNeverGoesBack(View(m, k), ViewRun(PeerPolicy(), m, steps, k))
            && Return !in ViewRun(PeerPolicy(), m, steps, k)
  {
    var m: Machine<K, PeerUpdate, PeerUpdate> := Machine([], [], db);
    SoloView(m, k);
    EagerRun(PeerPolicy(), View(m, k), h);
    PeerTimes();
    if RowNeverGoesBack(View(m, k), Eager(h)) {
      EagerGoesBack(PeerPolicy(), PeerTime(), PeerTime(), View(m, k), h);
    }
    SchedulesMove(h);
    steps := SoloRun(PeerPolicy(), m, k, Eager(h));
  }
}
