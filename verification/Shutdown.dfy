/** The end of the program: with no more announces coming in, the queues are flushed until they are empty, but
    at most a thousand times. */
module Shutdown {
  import opened MachineInts
  import opened Queues
  import opened AllQueues

  const MAX_FLUSHES := 1000

  /** More flushes than there will ever be */
  const NEVER := MAX_FLUSHES + 1

  /** Flushes that empty a queue if all succeed: its length over what one flush takes, rounded up */
  function Needed(len: nat, capacity: nat): nat {
    if len == 0 then 0 else if capacity == 0 then NEVER else (len + capacity - 1) / capacity
  }

  function NeededOf(sizes: Lengths, capacities: Lengths): Lengths {
    Lengths(
      Needed(sizes.announces, capacities.announces), Needed(sizes.histories, capacities.histories),
      Needed(sizes.peers, capacities.peers), Needed(sizes.torrents, capacities.torrents),
      Needed(sizes.users, capacities.users), Needed(sizes.unregistered, capacities.unregistered))
  }

  function Greatest(l: Lengths): nat {
    Max(l.announces, Max(l.histories, Max(l.peers, Max(l.torrents, Max(l.users, l.unregistered)))))
  }

  lemma SmallQuotient(len: nat, capacity: nat)
    requires 0 < len <= capacity
    ensures (len + capacity - 1) / capacity == 1
  {
    var n := len + capacity - 1;
    assert capacity <= n < 2 * capacity;
    DivisionIsUnique(n, capacity, 1);
  }

  lemma DivisionIsUnique(n: nat, d: nat, q: nat)
    requires d > 0 && q * d <= n < (q + 1) * d
    ensures n / d == q
  {
    var r := n - q * d;
    assert n == q * d + r && 0 <= r < d;
    assert n / d <= q by {
      if n / d > q {
        TimesMonotone(q + 1, n / d, d);
      }
    }
    assert n / d >= q by {
      if n / d < q {
        TimesMonotone(n / d + 1, q, d);
      }
    }
  }

  lemma QuotientStep(len: nat, capacity: nat)
    requires len > capacity > 0
    ensures (len + capacity - 1) / capacity == 1 + (len - 1) / capacity
  {
    var q, r := (len - 1) / capacity, (len - 1) % capacity;
    assert (q + 1) * capacity == q * capacity + capacity && (q + 2) * capacity == q * capacity + 2 * capacity;
    DivisionIsUnique(len + capacity - 1, capacity, q + 1);
  }

  /** A queue without capacity stays as it is; any other needs one flush less after each */
  function After(needed: nat, flushes: nat, capacity: nat): nat {
    if needed > 0 && capacity == 0 then NEVER else Max(needed - flushes, 0)
  }

  lemma NeededStep(len: nat, capacity: nat)
    ensures Needed(Max(len - capacity, 0), capacity) == After(Needed(len, capacity), 1, capacity)
  {
    if capacity > 0 && len > capacity {
      QuotientStep(len, capacity);
      assert (len - capacity) + capacity - 1 == len - 1;
    } else if 0 < len <= capacity {
      SmallQuotient(len, capacity);
    }
  }

  lemma NeededIsPositive(len: nat, capacity: nat)
    ensures Needed(len, capacity) == 0 <==> len == 0
  {
    if len > 0 && capacity > 0 {
      if len > capacity {
        QuotientStep(len, capacity);
        assert (len - 1) / capacity >= 0;
      } else {
        SmallQuotient(len, capacity);
      }
    }
  }

  /** One queue's progress */
  ghost predicate OnCourse(len0: nat, len: nat, capacity: nat, flushes: nat) {
    Needed(len, capacity) == After(Needed(len0, capacity), flushes, capacity)
  }

  ghost predicate AllOnCourse(l0: Lengths, l: Lengths, c: Lengths, flushes: nat) {
    && OnCourse(l0.announces, l.announces, c.announces, flushes)
    && OnCourse(l0.histories, l.histories, c.histories, flushes)
    && OnCourse(l0.peers, l.peers, c.peers, flushes)
    && OnCourse(l0.torrents, l.torrents, c.torrents, flushes)
    && OnCourse(l0.users, l.users, c.users, flushes)
    && OnCourse(l0.unregistered, l.unregistered, c.unregistered, flushes)
  }

  lemma OnCourseStep(len0: nat, len: nat, capacity: nat, flushes: nat)
    requires OnCourse(len0, len, capacity, flushes)
    ensures OnCourse(len0, Max(len - capacity, 0), capacity, flushes + 1)
  {
    NeededStep(len, capacity);
    NeededIsPositive(len, capacity);
  }

  lemma AllOnCourseStep(l0: Lengths, l: Lengths, c: Lengths, flushes: nat)
    requires AllOnCourse(l0, l, c, flushes)
    ensures AllOnCourse(l0, l.Less(c), c, flushes + 1)
  {
    OnCourseStep(l0.announces, l.announces, c.announces, flushes);
    OnCourseStep(l0.histories, l.histories, c.histories, flushes);
    OnCourseStep(l0.peers, l.peers, c.peers, flushes);
    OnCourseStep(l0.torrents, l.torrents, c.torrents, flushes);
    OnCourseStep(l0.users, l.users, c.users, flushes);
    OnCourseStep(l0.unregistered, l.unregistered, c.unregistered, flushes);
  }

  lemma EmptyIff(l: Lengths, c: Lengths)
    ensures l.AllZero() <==> Greatest(NeededOf(l, c)) == 0
  {
    NeededIsPositive(l.announces, c.announces);
    NeededIsPositive(l.histories, c.histories);
    NeededIsPositive(l.peers, c.peers);
    NeededIsPositive(l.torrents, c.torrents);
    NeededIsPositive(l.users, c.users);
    NeededIsPositive(l.unregistered, c.unregistered);
  }

  /** Something is left after so many successful flushes exactly if more were needed */
  lemma LeftIff(l0: Lengths, l: Lengths, c: Lengths, flushes: nat)
    requires AllOnCourse(l0, l, c, flushes) && flushes <= MAX_FLUSHES
    ensures l.AllZero() <==> Greatest(NeededOf(l0, c)) <= flushes
  {
    EmptyIff(l, c);
    NeverFits(l0.announces, c.announces);
    NeverFits(l0.histories, c.histories);
    NeverFits(l0.peers, c.peers);
    NeverFits(l0.torrents, c.torrents);
    NeverFits(l0.users, c.users);
    NeverFits(l0.unregistered, c.unregistered);
  }

  lemma NeverFits(len: nat, capacity: nat)
    ensures capacity == 0 && Needed(len, capacity) > 0 ==> Needed(len, capacity) == NEVER
  {
  }

  /** Where the loop stands, if all flushes succeed */
  ghost predicate Standing(l0: Lengths, l: Lengths, c: Lengths, flushes: nat) {
    AllOnCourse(l0, l, c, flushes) && flushes <= Greatest(NeededOf(l0, c))
  }

  lemma StandingStep(l0: Lengths, l: Lengths, c: Lengths, flushes: nat)
    requires Standing(l0, l, c, flushes) && flushes < MAX_FLUSHES && !l.AllZero()
    ensures Standing(l0, l.Less(c), c, flushes + 1)
  {
    LeftIff(l0, l, c, flushes);
    AllOnCourseStep(l0, l, c, flushes);
  }

  lemma StandingAtStart(l: Lengths, c: Lengths)
    ensures Standing(l, l, c, 0)
  {
  }

  /** A flush, by the lengths of the queues */
  method FlushOnce(queues: QueueSet, settings: FlushSettings, o: Outcomes)
    requires queues.Valid()
    modifies queues.Footprint()
    ensures queues.Valid() && queues.Sizes().AtMost(old(queues.Sizes()))
    ensures AllSucceed(o) ==> queues.Sizes() == old(queues.Sizes()).Less(queues.Capacities(settings))
  {
    queues.Flush(settings, o);
  }

  ghost predicate AlwaysSucceed(outcomes: nat -> Outcomes) {
    forall i: nat :: AllSucceed(outcomes(i))
  }

  /** The report is right about the queues whenever it claims success. If all batches succeed, it claims success
      exactly if fewer than a thousand flushes are needed, and something is left exactly if more are: a set of
      queues that the last flush empties is wrongly reported as a failure. */
  method Drain(queues: QueueSet, settings: FlushSettings, outcomes: nat -> Outcomes)
      returns (flushes: nat, succeeded: bool)
    requires queues.Valid()
    modifies queues.Footprint()
    ensures queues.Valid() && flushes <= MAX_FLUSHES
    ensures succeeded ==> queues.Sizes().AllZero()
    ensures AlwaysSucceed(outcomes) ==>
              var needed := Greatest(NeededOf(old(queues.Sizes()), queues.Capacities(settings)));
              && flushes == Min(needed, MAX_FLUSHES)
              && (succeeded <==> needed < MAX_FLUSHES)
              && (queues.Sizes().AllZero() <==> needed <= MAX_FLUSHES)
  {
    flushes := 0;
    ghost var start, capacities := queues.Sizes(), queues.Capacities(settings);
    ghost var smooth := AlwaysSucceed(outcomes);
    StandingAtStart(start, capacities);
    while flushes < MAX_FLUSHES && queues.AreNotEmpty()
      invariant queues.Valid() && flushes <= MAX_FLUSHES
      invariant smooth ==> Standing(start, queues.Sizes(), capacities, flushes)
    {
      if smooth {
        assert AllSucceed(outcomes(flushes));
        StandingStep(start, queues.Sizes(), capacities, flushes);
      }
      FlushOnce(queues, settings, outcomes(flushes));
      flushes := flushes + 1;
    }
    succeeded := flushes != MAX_FLUSHES;
    if smooth {
      LeftIff(start, queues.Sizes(), capacities, flushes);
    }
  }

  /** An announce log of exactly a thousand batches is emptied by the last flush, and so reported as a failure, and one
      more record makes it a real one. */
  lemma CutOffAtTheEnd(capacities: Lengths)
    requires capacities.announces == ANNOUNCE_LIMIT
    ensures MAX_FLUSHES == 1000 && ANNOUNCE_LIMIT == 5461
    ensures Greatest(NeededOf(Lengths(1000 * 5461, 0, 0, 0, 0, 0), capacities)) == MAX_FLUSHES
    ensures Greatest(NeededOf(Lengths(1000 * 5461 + 1, 0, 0, 0, 0, 0), capacities)) == MAX_FLUSHES + 1
  {
    DivisionIsUnique(MAX_FLUSHES * ANNOUNCE_LIMIT + ANNOUNCE_LIMIT - 1, ANNOUNCE_LIMIT, MAX_FLUSHES);
    DivisionIsUnique(MAX_FLUSHES * ANNOUNCE_LIMIT + ANNOUNCE_LIMIT, ANNOUNCE_LIMIT, MAX_FLUSHES + 1);
  }
}
