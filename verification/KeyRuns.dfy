/** Runs of the flush protocol seen from one key, and the claims that hold over all of them: no transferred
    byte is lost or counted twice, and the newest announce wins. */
module KeyRuns {
  import opened MachineInts
  import opened Results
  import opened FlushProtocol
  import opened Updates

  ghost predicate KeyLegal<V, R>(p: Policy<V, R>, s: KeyState<V, R>, es: seq<KeyStep<V>>)
    decreases |es|
  {
    es == [] || (KeyEnabled(s, es[0]) && KeyLegal(p, KeyNext(p, s, es[0]), es[1..]))
  }

  ghost function KeyRun<V, R>(p: Policy<V, R>, s: KeyState<V, R>, es: seq<KeyStep<V>>): KeyState<V, R>
    requires KeyLegal(p, s, es)
    decreases |es|
  {
    if es == [] then s else KeyRun(p, KeyNext(p, s, es[0]), es[1..])
  }

  ghost function Arrivals<V>(es: seq<KeyStep<V>>): seq<V> {
    if es == [] then []
    else (if es[0].Arrive? then [es[0].update] else []) + Arrivals(es[1..])
  }

  ghost function ViewRun<K, V, R>(
      p: Policy<V, R>, s: Machine<K, V, R>, steps: seq<Step<K, V>>, k: K): seq<KeyStep<V>>
    requires Legal(p, s, steps)
    decreases |steps|
  {
    if steps == [] then [] else [ViewStep(s, steps[0], k)] + ViewRun(p, Next(p, s, steps[0]), steps[1..], k)
  }

  /** A run of the whole queue is a run of each of its keys */
  lemma {:induction false} RunProjects<K, V, R>(
      p: Policy<V, R>, s: Machine<K, V, R>, steps: seq<Step<K, V>>, k: K)
    requires WellFormed(s) && Legal(p, s, steps)
    ensures WellFormed(Run(p, s, steps))
    ensures KeyLegal(p, View(s, k), ViewRun(p, s, steps, k))
    ensures View(Run(p, s, steps), k) == KeyRun(p, View(s, k), ViewRun(p, s, steps, k))
    ensures Arrivals(ViewRun(p, s, steps, k)) == UpdatesOf(steps, k)
    decreases |steps|
  {
    if steps != [] {
      StepProjects(p, s, steps[0], k);
      RunProjects(p, Next(p, s, steps[0]), steps[1..], k);
      var es := ViewRun(p, s, steps, k);
      assert es[1..] == ViewRun(p, Next(p, s, steps[0]), steps[1..], k);
    }
  }

  // ---- Conservation ----

  /** A column that upserts add to: `amount` of an update, `total` of a row. Merging adds amounts as long as
      the sum fits below `cap`, and falls short of it otherwise (by saturating or wrapping). */
  ghost predicate AddsUp<V(!new), R(!new)>(p: Policy<V, R>, amount: V -> int, total: R -> int, cap: int) {
    && (forall v :: 0 <= amount(v))
    && (forall u, v :: if amount(u) + amount(v) <= cap
                       then amount(p.merge(u, v)) == amount(u) + amount(v)
                       else amount(p.merge(u, v)) < amount(u) + amount(v))
    && (forall v :: total(p.apply(None, v)) == amount(v))
    && (forall r, v :: total(p.apply(Some(r), v)) == total(r) + amount(v))
  }

  ghost function AmountOf<V>(amount: V -> int, o: Option<V>): int {
    match o case Some(v) => amount(v) case None => 0
  }

  /** Stored + in flight + queued */
  ghost function Ledger<V, R>(amount: V -> int, total: R -> int, s: KeyState<V, R>): int {
    AmountOf(total, s.stored) + AmountOf(amount, s.flight) + AmountOf(amount, s.queued)
  }

  ghost function Sum<V>(amount: V -> int, vs: seq<V>): int {
    if vs == [] then 0 else amount(vs[0]) + Sum(amount, vs[1..])
  }

  /** No merge of this step overflows */
  ghost predicate MergeFits<V, R>(amount: V -> int, cap: int, s: KeyState<V, R>, e: KeyStep<V>)
    requires KeyEnabled(s, e)
  {
    match e
    case Arrive(v) => s.queued.Some? ==> amount(s.queued.value) + amount(v) <= cap
    case Return => s.queued.Some? ==> amount(s.queued.value) + amount(s.flight.value) <= cap
    case _ => true
  }

  ghost predicate MergesFit<V, R>(
      p: Policy<V, R>, amount: V -> int, cap: int, s: KeyState<V, R>, es: seq<KeyStep<V>>)
    requires KeyLegal(p, s, es)
    decreases |es|
  {
    es == [] || (MergeFits(amount, cap, s, es[0]) && MergesFit(p, amount, cap, KeyNext(p, s, es[0]), es[1..]))
  }

  lemma LedgerStep<V(!new), R(!new)>(
      p: Policy<V, R>, amount: V -> int, total: R -> int, cap: int, s: KeyState<V, R>, e: KeyStep<V>)
    requires AddsUp(p, amount, total, cap) && KeyEnabled(s, e)
    ensures var arrived := if e.Arrive? then amount(e.update) else 0;
            if MergeFits(amount, cap, s, e)
            then Ledger(amount, total, KeyNext(p, s, e)) == Ledger(amount, total, s) + arrived
            else Ledger(amount, total, KeyNext(p, s, e)) < Ledger(amount, total, s) + arrived
  {
  }

  /** Over any run, the ledger equals its initial value plus everything that arrived, exactly when no merge
      overflowed; otherwise it has lost something for good. */
  lemma {:induction false} LedgerOverKeyRun<V(!new), R(!new)>(
      p: Policy<V, R>, amount: V -> int, total: R -> int, cap: int, s: KeyState<V, R>, es: seq<KeyStep<V>>)
    requires AddsUp(p, amount, total, cap) && KeyLegal(p, s, es)
    ensures Ledger(amount, total, KeyRun(p, s, es)) <= Ledger(amount, total, s) + Sum(amount, Arrivals(es))
    ensures Ledger(amount, total, KeyRun(p, s, es)) == Ledger(amount, total, s) + Sum(amount, Arrivals(es))
            <==> MergesFit(p, amount, cap, s, es)
    decreases |es|
  {
    if es != [] {
      LedgerStep(p, amount, total, cap, s, es[0]);
      LedgerOverKeyRun(p, amount, total, cap, KeyNext(p, s, es[0]), es[1..]);
      if es[0].Arrive? {
        assert Arrivals(es) == [es[0].update] + Arrivals(es[1..]);
        assert Arrivals(es)[1..] == Arrivals(es[1..]);
      } else {
        assert Arrivals(es) == Arrivals(es[1..]);
      }
    }
  }

  /** No merge overflows while the open amounts and all arrivals together stay below the cap */
  lemma {:induction false} SmallSumsFit<V(!new), R(!new)>(
      p: Policy<V, R>, amount: V -> int, total: R -> int, cap: int, s: KeyState<V, R>, es: seq<KeyStep<V>>)
    requires AddsUp(p, amount, total, cap) && KeyLegal(p, s, es)
    requires AmountOf(amount, s.flight) + AmountOf(amount, s.queued) + Sum(amount, Arrivals(es)) <= cap
    ensures MergesFit(p, amount, cap, s, es)
    decreases |es|
  {
    if es != [] {
      SumIsNonNegative(amount, Arrivals(es));
      SumIsNonNegative(amount, Arrivals(es[1..]));
      if es[0].Arrive? {
        assert Arrivals(es) == [es[0].update] + Arrivals(es[1..]);
        assert Arrivals(es)[1..] == Arrivals(es[1..]);
      } else {
        assert Arrivals(es) == Arrivals(es[1..]);
      }
      SmallSumsFit(p, amount, total, cap, KeyNext(p, s, es[0]), es[1..]);
    }
  }

  lemma {:induction false} SumIsNonNegative<V(!new)>(amount: V -> int, vs: seq<V>)
    requires forall v :: 0 <= amount(v)
    ensures 0 <= Sum(amount, vs)
  {
    if vs != [] {
      SumIsNonNegative(amount, vs[1..]);
    }
  }

  /** The same over runs of the whole queue, for each of its keys */
  lemma TransfersAreConserved<K(!new), V(!new), R(!new)>(
      p: Policy<V, R>, amount: V -> int, total: R -> int, cap: int,
      s: Machine<K, V, R>, steps: seq<Step<K, V>>, k: K)
    requires AddsUp(p, amount, total, cap) && WellFormed(s) && Legal(p, s, steps)
    requires AmountOf(amount, View(s, k).flight) + AmountOf(amount, View(s, k).queued)
             + Sum(amount, UpdatesOf(steps, k)) <= cap
    ensures Ledger(amount, total, View(Run(p, s, steps), k))
            == Ledger(amount, total, View(s, k)) + Sum(amount, UpdatesOf(steps, k))
  {
    RunProjects(p, s, steps, k);
    SmallSumsFit(p, amount, total, cap, View(s, k), ViewRun(p, s, steps, k));
    LedgerOverKeyRun(p, amount, total, cap, View(s, k), ViewRun(p, s, steps, k));
  }

  datatype HistoryColumn = ActualUploaded | ActualDownloaded | CreditedUploaded | CreditedDownloaded

  function HistoryAmount(c: HistoryColumn): HistoryUpdate -> int {
    (v: HistoryUpdate) =>
      match c
      case ActualUploaded => v.uploadedDelta
      case ActualDownloaded => v.downloadedDelta
      case CreditedUploaded => v.creditedUploadedDelta
      case CreditedDownloaded => v.creditedDownloadedDelta
  }

  function HistoryTotal(c: HistoryColumn): HistoryRow -> int {
    (r: HistoryRow) =>
      match c
      case ActualUploaded => r.actualUploaded
      case ActualDownloaded => r.actualDownloaded
      case CreditedUploaded => r.uploaded
      case CreditedDownloaded => r.downloaded
  }

  /** The transfer columns of the histories (wrapping sums) add up */
  lemma HistoryColumnsAddUp(c: HistoryColumn)
    ensures AddsUp(HistoryPolicy(), HistoryAmount(c), HistoryTotal(c), U64_MAX)
  {
    var p, amount, total := HistoryPolicy(), HistoryAmount(c), HistoryTotal(c);
    forall u, v
      ensures if amount(u) + amount(v) <= U64_MAX
              then amount(p.merge(u, v)) == amount(u) + amount(v)
              else amount(p.merge(u, v)) < amount(u) + amount(v)
    {
      assert p.merge(u, v) == MergedHistoryUpdate(u, v);
    }
    forall v ensures total(p.apply(None, v)) == amount(v) {
      assert p.apply(None, v) == AppliedHistoryUpdate(None, v);
    }
    forall r, v ensures total(p.apply(Some(r), v)) == total(r) + amount(v) {
      assert p.apply(Some(r), v) == AppliedHistoryUpdate(Some(r), v);
    }
  }

  // ---- Newest wins ----

  /** The announces of one peer: later ones carry later times */
  ghost predicate Chronological(h: seq<PeerUpdate>) {
    && (forall i :: 0 <= i < |h| ==> h[i].createdAt == h[i].updatedAt)
    && (forall i, j :: 0 <= i < j < |h| ==> h[i].updatedAt < h[j].updatedAt)
  }

  /** What a stretch of announces merges to: the newest of them, created when the oldest was */
  ghost function Digest(h: seq<PeerUpdate>): Option<PeerUpdate> {
    if h == [] then None else Some(h[|h| - 1].(createdAt := h[0].createdAt))
  }

  /** The stored row after the announces `h`, from the row `initial` */
  ghost function RowAfter(initial: Option<PeerUpdate>, h: seq<PeerUpdate>): Option<PeerUpdate> {
    if h == [] then initial
    else Some(h[|h| - 1].(createdAt := initial.GetOr(h[0]).createdAt))
  }

  /** The announces so far fall into three consecutive stretches: stored, in flight, queued */
  ghost predicate Split(initial: Option<PeerUpdate>, h: seq<PeerUpdate>, a: nat, b: nat,
                        s: KeyState<PeerUpdate, PeerUpdate>) {
    && a <= b <= |h|
    && s == KeyState(Digest(h[b..]), Digest(h[a..b]), RowAfter(initial, h[..a]))
  }

  lemma DigestJoin(older: seq<PeerUpdate>, newer: seq<PeerUpdate>)
    requires Chronological(older + newer) && older != [] && newer != []
    ensures MergedPeerUpdate(Digest(newer).value, Digest(older).value) == Digest(older + newer).value
    ensures MergedPeerUpdate(Digest(older).value, Digest(newer).value) == Digest(older + newer).value
  {
    var h := older + newer;
    assert h[0] == older[0] && h[|older| - 1] == older[|older| - 1];
    assert h[|older|] == newer[0] && h[|h| - 1] == newer[|newer| - 1];
    assert h[|older| - 1].updatedAt < h[|h| - 1].updatedAt;
    assert h[0].createdAt <= h[|older|].createdAt;
  }

  lemma RowJoin(initial: Option<PeerUpdate>, stored: seq<PeerUpdate>, landing: seq<PeerUpdate>)
    requires landing != []
    ensures Some(AppliedPeerUpdate(RowAfter(initial, stored), Digest(landing).value))
            == RowAfter(initial, stored + landing)
  {
  }

  lemma ChronologicalPart(h: seq<PeerUpdate>, i: nat, j: nat)
    requires Chronological(h) && i <= j <= |h|
    ensures Chronological(h[i..j])
  {
  }

  lemma SplitArrive(initial: Option<PeerUpdate>, h: seq<PeerUpdate>, a: nat, b: nat,
                    s: KeyState<PeerUpdate, PeerUpdate>, v: PeerUpdate)
    requires Split(initial, h, a, b, s) && Chronological(h + [v])
    ensures Split(initial, h + [v], a, b, KeyNext(PeerPolicy(), s, Arrive(v)))
  {
    var h' := h + [v];
    assert h'[b..] == h[b..] + [v] && h'[a..b] == h[a..b] && h'[..a] == h[..a];
    ChronologicalPart(h', b, |h'|);
    if b < |h| {
      DigestJoin(h[b..], [v]);
    }
  }

  lemma SplitReturn(initial: Option<PeerUpdate>, h: seq<PeerUpdate>, a: nat, b: nat,
                    s: KeyState<PeerUpdate, PeerUpdate>)
    requires Split(initial, h, a, b, s) && Chronological(h) && s.flight.Some?
    ensures Split(initial, h, a, a, KeyNext(PeerPolicy(), s, Return))
  {
    assert h[a..] == h[a..b] + h[b..] && h[a..a] == [];
    ChronologicalPart(h, a, |h|);
    if b < |h| {
      DigestJoin(h[a..b], h[b..]);
    } else {
      assert h[b..] == [] && h[a..] == h[a..b];
    }
  }

  lemma SplitLand(initial: Option<PeerUpdate>, h: seq<PeerUpdate>, a: nat, b: nat,
                  s: KeyState<PeerUpdate, PeerUpdate>)
    requires Split(initial, h, a, b, s) && s.flight.Some?
    ensures Split(initial, h, b, b, KeyNext(PeerPolicy(), s, Land))
  {
    assert h[..b] == h[..a] + h[a..b] && h[b..b] == [];
    RowJoin(initial, h[..a], h[a..b]);
  }

  lemma SplitDepart(initial: Option<PeerUpdate>, h: seq<PeerUpdate>, a: nat, b: nat,
                    s: KeyState<PeerUpdate, PeerUpdate>)
    requires Split(initial, h, a, b, s) && KeyEnabled(s, Depart)
    ensures Split(initial, h, a, |h|, KeyNext(PeerPolicy(), s, Depart))
  {
    assert h[|h|..] == [] && a == b && h[a..|h|] == h[b..];
  }

  lemma SplitStep(initial: Option<PeerUpdate>, h: seq<PeerUpdate>, a: nat, b: nat,
                  s: KeyState<PeerUpdate, PeerUpdate>, e: KeyStep<PeerUpdate>)
    returns (a': nat, b': nat)
    requires Split(initial, h, a, b, s) && KeyEnabled(s, e)
    requires Chronological(h) && (e.Arrive? ==> Chronological(h + [e.update]))
    ensures a <= a'
    ensures Split(initial, if e.Arrive? then h + [e.update] else h, a', b', KeyNext(PeerPolicy(), s, e))
  {
    a', b' := a, b;
    match e {
      case Arrive(v) =>
        SplitArrive(initial, h, a, b, s, v);
      case Depart =>
        SplitDepart(initial, h, a, b, s);
        b' := |h|;
      case Land =>
        SplitLand(initial, h, a, b, s);
        a' := b;
      case Return =>
        SplitReturn(initial, h, a, b, s);
        b' := a;
      case Stay =>
    }
  }

  /** Under any pattern of flushes, failed batches and announces made meanwhile, the three places of a peer
      hold three consecutive stretches of its announces. */
  lemma {:induction false} SplitOverKeyRun(
      initial: Option<PeerUpdate>, h: seq<PeerUpdate>, a: nat, b: nat,
      s: KeyState<PeerUpdate, PeerUpdate>, es: seq<KeyStep<PeerUpdate>>)
    returns (a': nat, b': nat)
    requires Split(initial, h, a, b, s) && KeyLegal(PeerPolicy(), s, es)
    requires Chronological(h + Arrivals(es))
    ensures a <= a' && Split(initial, h + Arrivals(es), a', b', KeyRun(PeerPolicy(), s, es))
    decreases |es|
  {
    if es == [] {
      a', b' := a, b;
      assert h + Arrivals(es) == h;
    } else {
      var all := h + Arrivals(es);
      assert h == all[..|h|];
      ghost var h1 := if es[0].Arrive? then h + [es[0].update] else h;
      assert h1 + Arrivals(es[1..]) == all;
      assert h1 == all[..|h1|];
      ChronologicalPart(all, 0, |h|);
      ChronologicalPart(all, 0, |h1|);
      var a1, b1 := SplitStep(initial, h, a, b, s, es[0]);
      a', b' := SplitOverKeyRun(initial, h1, a1, b1, KeyNext(PeerPolicy(), s, es[0]), es[1..]);
    }
  }

  ghost function StoredTime(stored: Option<PeerUpdate>, before: Time): Time {
    match stored case Some(r) => r.updatedAt case None => before
  }

  /** Strictly later announces than what the row holds, or than `before` if there is no row */
  ghost predicate FreshAnnounces(stored: Option<PeerUpdate>, h: seq<PeerUpdate>, before: Time) {
    Chronological(h) && (h != [] ==> StoredTime(stored, before) < h[0].updatedAt)
  }

  lemma StretchTimes(initial: Option<PeerUpdate>, h: seq<PeerUpdate>, a: nat, a2: nat, before: Time)
    requires a <= a2 <= |h| && FreshAnnounces(initial, h, before)
    ensures StoredTime(RowAfter(initial, h[..a]), before) <= StoredTime(RowAfter(initial, h[..a2]), before)
  {
    if a < a2 {
      assert h[0].updatedAt <= h[a2 - 1].updatedAt;
    }
  }

  /** Newest wins despite failures, for the peer queue as a whole: with strictly increasing announce times,
      (1) the stored row's time never goes back between any two moments of the run, and (2) once the peer's
      updates are drained, its row holds its latest announce, and keeps the creation time it first got. */
  lemma NewestWins<K(!new)>(
      s: Machine<K, PeerUpdate, PeerUpdate>, first: seq<Step<K, PeerUpdate>>, second: seq<Step<K, PeerUpdate>>,
      k: K, before: Time)
    requires WellFormed(s) && View(s, k).queued.None? && View(s, k).flight.None?
    requires Legal(PeerPolicy(), s, first) && Legal(PeerPolicy(), Run(PeerPolicy(), s, first), second)
    requires FreshAnnounces(View(s, k).stored, UpdatesOf(first, k) + UpdatesOf(second, k), before)
    ensures var mid := View(Run(PeerPolicy(), s, first), k);
            var end := View(Run(PeerPolicy(), Run(PeerPolicy(), s, first), second), k);
            && StoredTime(mid.stored, before) <= StoredTime(end.stored, before)
            && (end.queued.None? && end.flight.None? ==>
                  end.stored == RowAfter(View(s, k).stored, UpdatesOf(first, k) + UpdatesOf(second, k)))
  {
    var p := PeerPolicy();
    var mid := Run(p, s, first);
    RunProjects(p, s, first, k);
    RunProjects(p, mid, second, k);
    NewestWinsForKey(View(s, k), ViewRun(p, s, first, k), View(mid, k), ViewRun(p, mid, second, k), before);
  }

  lemma NewestWinsForKey(
      s: KeyState<PeerUpdate, PeerUpdate>, first: seq<KeyStep<PeerUpdate>>,
      mid: KeyState<PeerUpdate, PeerUpdate>, second: seq<KeyStep<PeerUpdate>>, before: Time)
    requires s.queued.None? && s.flight.None?
    requires KeyLegal(PeerPolicy(), s, first) && mid == KeyRun(PeerPolicy(), s, first)
    requires KeyLegal(PeerPolicy(), mid, second)
    requires FreshAnnounces(s.stored, Arrivals(first) + Arrivals(second), before)
    ensures var end := KeyRun(PeerPolicy(), mid, second);
            && StoredTime(mid.stored, before) <= StoredTime(end.stored, before)
            && (end.queued.None? && end.flight.None? ==>
                  end.stored == RowAfter(s.stored, Arrivals(first) + Arrivals(second)))
  {
    var h1 := Arrivals(first);
    ChronologicalPart(h1 + Arrivals(second), 0, |h1|);
    assert (h1 + Arrivals(second))[0..|h1|] == h1;
    var a, b := SplitAfterKeyRun(s, first);
    StoredTimeOverKeyRun(s.stored, h1, a, b, mid, second, before);
  }

  lemma SplitAfterKeyRun(s: KeyState<PeerUpdate, PeerUpdate>, es: seq<KeyStep<PeerUpdate>>)
    returns (a: nat, b: nat)
    requires s.queued.None? && s.flight.None?
    requires KeyLegal(PeerPolicy(), s, es) && Chronological(Arrivals(es))
    ensures Split(s.stored, Arrivals(es), a, b, KeyRun(PeerPolicy(), s, es))
  {
    assert [] + Arrivals(es) == Arrivals(es);
    SplitOfNothing(s);
    a, b := SplitOverKeyRun(s.stored, [], 0, 0, s, es);
  }

  lemma StoredTimeOverKeyRun(
      initial: Option<PeerUpdate>, h: seq<PeerUpdate>, a: nat, b: nat,
      s: KeyState<PeerUpdate, PeerUpdate>, es: seq<KeyStep<PeerUpdate>>, before: Time)
    requires Split(initial, h, a, b, s) && KeyLegal(PeerPolicy(), s, es)
    requires FreshAnnounces(initial, h + Arrivals(es), before)
    ensures var end := KeyRun(PeerPolicy(), s, es);
            && StoredTime(s.stored, before) <= StoredTime(end.stored, before)
            && (end.queued.None? && end.flight.None? ==> end.stored == RowAfter(initial, h + Arrivals(es)))
  {
    var all := h + Arrivals(es);
    var a2, b2 := SplitOverKeyRun(initial, h, a, b, s, es);
    assert h[..a] == all[..a];
    StretchTimes(initial, all, a, a2, before);
    var end := KeyRun(PeerPolicy(), s, es);
    if end.queued.None? && end.flight.None? {
      SplitDrained(initial, all, a2, b2, end);
    }
  }

  lemma SplitOfNothing(s: KeyState<PeerUpdate, PeerUpdate>)
    requires s.queued.None? && s.flight.None?
    ensures Split(s.stored, [], 0, 0, s)
  {
  }

  lemma SplitDrained(initial: Option<PeerUpdate>, h: seq<PeerUpdate>, a: nat, b: nat,
                     s: KeyState<PeerUpdate, PeerUpdate>)
    requires Split(initial, h, a, b, s) && s.queued.None? && s.flight.None?
    ensures s.stored == RowAfter(initial, h)
  {
    assert h[b..] == [] && h[a..b] == [] && a == |h|;
    assert h[..a] == h;
  }
}
