/** The balance of a torrent, bytes uploaded less bytes downloaded: a signed column, whose sums in the queue saturate in
    both directions. While the balance moves within a band narrower than 2^63 it reaches the database exactly. */
module BalanceLedgers {
  import opened MachineInts
  import opened Updates
  import opened Peers
  import opened Admissions
  import opened Tracker
  import opened FlushProtocol
  import opened KeyRuns
  import opened QueueTraces
  import opened TrackerLedgers
  import opened TorrentLedgers
  import Swarms
  import Passes

  // ---- Signed columns ----

  /** A column that upserts add to, with sums that are exact up to the width in both directions */
  ghost predicate AddsWithin<V(!new), R(!new)>(p: Policy<V, R>, amount: V -> int, total: R -> int, width: int) {
    && (forall u, v :: -width <= amount(u) + amount(v) <= width ==> amount(p.merge(u, v)) == amount(u) + amount(v))
    && (forall r, v :: total(p.apply(r, v)) == AmountOf(total, r) + amount(v))
  }

  /** What is stored, with or without what is in flight and queued, is in the band */
  ghost predicate InBand<V, R>(amount: V -> int, total: R -> int, lo: int, hi: int, s: KeyState<V, R>) {
    && lo <= AmountOf(total, s.stored) <= hi
    && lo <= AmountOf(total, s.stored) + AmountOf(amount, s.flight) <= hi
    && lo <= Ledger(amount, total, s) <= hi
  }

  /** Starting from the given sum, it stays in the band with each of the updates */
  ghost predicate StaysInBand<V>(amount: V -> int, lo: int, hi: int, from: int, h: seq<V>)
    decreases |h|
  {
    lo <= from <= hi && (h == [] || StaysInBand(amount, lo, hi, from + amount(h[0]), h[1..]))
  }

  lemma InBandStep<V(!new), R(!new)>(
      p: Policy<V, R>, amount: V -> int, total: R -> int, width: int, lo: int, hi: int, s: KeyState<V, R>, e: KeyStep<V>)
    requires AddsWithin(p, amount, total, width) && hi - lo <= width && KeyEnabled(s, e) && InBand(amount, total, lo, hi, s)
    requires e.Arrive? ==> lo <= Ledger(amount, total, s) + amount(e.update) <= hi
    ensures InBand(amount, total, lo, hi, KeyNext(p, s, e))
    ensures Ledger(amount, total, KeyNext(p, s, e))
            == Ledger(amount, total, s) + (if e.Arrive? then amount(e.update) else 0)
  {
  }

  /** While the sum of all updates stays in a band narrower than the width, it is what is stored, in flight and queued,
      whatever fails. */
  lemma {:induction false} BandOverKeyRun<V(!new), R(!new)>(
      p: Policy<V, R>, amount: V -> int, total: R -> int, width: int, lo: int, hi: int, s: KeyState<V, R>,
      es: seq<KeyStep<V>>)
    requires AddsWithin(p, amount, total, width) && hi - lo <= width && KeyLegal(p, s, es)
    requires InBand(amount, total, lo, hi, s)
    requires StaysInBand(amount, lo, hi, Ledger(amount, total, s), Arrivals(es))
    ensures Ledger(amount, total, KeyRun(p, s, es)) == Ledger(amount, total, s) + Sum(amount, Arrivals(es))
    decreases |es|
  {
    if es != [] {
      if es[0].Arrive? {
        assert Arrivals(es) == [es[0].update] + Arrivals(es[1..]);
        assert Arrivals(es)[1..] == Arrivals(es[1..]);
      } else {
        assert Arrivals(es) == Arrivals(es[1..]);
      }
      InBandStep(p, amount, total, width, lo, hi, s, es[0]);
      BandOverKeyRun(p, amount, total, width, lo, hi, KeyNext(p, s, es[0]), es[1..]);
    }
  }

  // ---- The balance ----

  function BalanceAmount(): TorrentUpdate -> int {
    (v: TorrentUpdate) => v.balanceDelta
  }

  function BalanceTotal(): TorrentRow -> int {
    (r: TorrentRow) => r.balance
  }

  lemma BalanceAddsWithin()
    ensures AddsWithin(TorrentPolicy(), BalanceAmount(), BalanceTotal(), I64_MAX)
  {
    var p := TorrentPolicy();
    assert forall u, v :: p.merge(u, v) == MergedTorrentUpdate(u, v);
    assert forall o, v :: p.apply(o, v) == AppliedTorrentUpdate(o, v);
  }

  /** What an event adds to the balance of a torrent */
  function BalanceBy(st: State, ev: TorrentEvent, id: TorrentId): int {
    if ev.Called? && ev.how.Carried? && ev.how.a.place < |st.torrents| && st.torrents[ev.how.a.place].id == id then
      Min(ev.how.v.change.uploadedDelta, 0x7FFF_FFFF_FFFF_FFFF) - Min(ev.how.v.change.downloadedDelta, 0x7FFF_FFFF_FFFF_FFFF)
    else 0
  }

  ghost function AllBalances(states: seq<TorrentSystem>, evs: seq<TorrentEvent>, id: TorrentId): int
    requires |states| == |evs| + 1
    decreases |evs|
  {
    if evs == [] then 0 else BalanceBy(states[0].st, evs[0], id) + AllBalances(states[1..], evs[1..], id)
  }

  lemma {:induction false} PassMovesNothing(c: Config, ac: Time, ic: Time, ts: seq<Torrent>, id: TorrentId)
    ensures Sum(BalanceAmount(), ValuesFor(Passes.AllTorrentOps(c, ac, ic, ts), id)) == 0
  {
    if ts != [] {
      PassMovesNothing(c, ac, ic, ts[1..], id);
      var first := Swarms.ReapOps(c, ac, ic, ts[0]);
      ValuesForConcat(first, Passes.AllTorrentOps(c, ac, ic, ts[1..]), id);
      SumConcat(BalanceAmount(), ValuesFor(first, id), ValuesFor(Passes.AllTorrentOps(c, ac, ic, ts[1..]), id));
      if |first| > 0 {
        SumOfOne(BalanceAmount(), first, id);
      }
    }
  }

  lemma BalanceOfEvent(x: Setup, st: State, ev: TorrentEvent, id: TorrentId)
    ensures Sum(BalanceAmount(), ValuesFor(UpsertsOf(TorrentFeed(x), st, ev), id)) == BalanceBy(st, ev, id)
  {
    match ev
    case Called(call, _, how) =>
      if |TorrentsOf(st, call, how)| > 0 {
        SumOfOne(BalanceAmount(), TorrentsOf(st, call, how), id);
      }
    case Passed(ac, ic) => PassMovesNothing(x.c, ac, ic, st.torrents, id);
    case Flushed(_) =>
  }

  lemma {:induction false} BalancesAreUpdates(x: Setup, states: seq<TorrentSystem>, evs: seq<TorrentEvent>, id: TorrentId)
    requires |states| == |evs| + 1
    ensures Sum(BalanceAmount(), AllUpdates(TorrentFeed(x), states, evs, id)) == AllBalances(states, evs, id)
    decreases |evs|
  {
    if evs != [] {
      BalancesAreUpdates(x, states[1..], evs[1..], id);
      BalanceOfEvent(x, states[0].st, evs[0], id);
      SumConcat(BalanceAmount(), ValuesFor(UpsertsOf(TorrentFeed(x), states[0].st, evs[0]), id),
                AllUpdates(TorrentFeed(x), states[1..], evs[1..], id));
    }
  }

  /** In every run of calls, passes and torrent flushes with arbitrary failures, stored + in flight + queued balance of
      each torrent moves by exactly what the accepted announces uploaded less what they downloaded, while it stays in a
      band narrower than 2^63. */
  lemma BalanceReachesTheTorrent(
      x: Setup, states: seq<TorrentSystem>, evs: seq<TorrentEvent>, id: TorrentId, lo: int, hi: int)
    requires IsRun(x, TorrentFeed(x), states, evs) && WellFormed(MachineOf(TorrentFeed(x), states[0]))
    requires hi - lo <= I64_MAX
    requires InBand(BalanceAmount(), BalanceTotal(), lo, hi, View(MachineOf(TorrentFeed(x), states[0]), id))
    requires StaysInBand(BalanceAmount(), lo, hi,
                         Ledger(BalanceAmount(), BalanceTotal(), View(MachineOf(TorrentFeed(x), states[0]), id)),
                         AllUpdates(TorrentFeed(x), states, evs, id))
    ensures Ledger(BalanceAmount(), BalanceTotal(), View(MachineOf(TorrentFeed(x), states[|evs|]), id))
            == Ledger(BalanceAmount(), BalanceTotal(), View(MachineOf(TorrentFeed(x), states[0]), id))
               + AllBalances(states, evs, id)
  {
    TorrentsAreFed(x);
    BalanceAddsWithin();
    BalancesAreUpdates(x, states, evs, id);
    var steps := RunIsQueueRun(x, TorrentFeed(x), states, evs, id);
    QueueBand(MachineOf(TorrentFeed(x), states[0]), steps, id, lo, hi);
  }

  lemma QueueBand(
      m: Machine<TorrentId, TorrentUpdate, TorrentRow>, steps: seq<Step<TorrentId, TorrentUpdate>>, id: TorrentId, lo: int,
      hi: int)
    requires WellFormed(m) && Legal(TorrentPolicy(), m, steps)
    requires hi - lo <= I64_MAX && InBand(BalanceAmount(), BalanceTotal(), lo, hi, View(m, id))
    requires StaysInBand(BalanceAmount(), lo, hi, Ledger(BalanceAmount(), BalanceTotal(), View(m, id)),
                         UpdatesOf(steps, id))
    ensures Ledger(BalanceAmount(), BalanceTotal(), View(Run(TorrentPolicy(), m, steps), id))
            == Ledger(BalanceAmount(), BalanceTotal(), View(m, id)) + Sum(BalanceAmount(), UpdatesOf(steps, id))
  {
    BalanceAddsWithin();
    RunProjects(TorrentPolicy(), m, steps, id);
    BandOverKeyRun(TorrentPolicy(), BalanceAmount(), BalanceTotal(), I64_MAX, lo, hi, View(m, id),
                   ViewRun(TorrentPolicy(), m, steps, id));
  }
}
