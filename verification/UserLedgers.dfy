/** From calls to stored users: over whole runs of the tracker, in which any batches of a flush may fail, the bytes that
    accepted announces are credited with all get there, once. */
module UserLedgers {
  import opened MachineInts
  import opened Results
  import opened Tables
  import opened Updates
  import opened Errors
  import opened Admissions
  import opened Tracker
  import opened FlushProtocol
  import opened KeyRuns
  import opened QueueTraces
  import opened TrackerLedgers

  type UserSystem = System<UserId, UserUpdate, UserRow>
  type UserEvent = TrackerEvent<UserId, UserUpdate>

  datatype CreditColumn = CreditedUp | CreditedDown

  function CreditIn(col: CreditColumn, v: UserUpdate): nat {
    if col == CreditedUp then v.uploadedDelta else v.downloadedDelta
  }

  function CreditAmount(col: CreditColumn): UserUpdate -> int {
    (v: UserUpdate) => CreditIn(col, v)
  }

  function CreditTotal(col: CreditColumn): UserRow -> int {
    (r: UserRow) => if col == CreditedUp then r.uploaded else r.downloaded
  }

  lemma CreditColumnsAddUp(col: CreditColumn)
    ensures AddsUp(UserPolicy(), CreditAmount(col), CreditTotal(col), U64_MAX)
  {
    var p := UserPolicy();
    assert forall u, v :: p.merge(u, v) == MergedUserUpdate(u, v);
    assert forall o, v :: p.apply(o, v) == AppliedUserUpdate(o, v);
  }

  /** The credit a call earns, if it is carried out and earns any */
  function CreditsOf(how: How): Table<UserId, UserUpdate> {
    if how.Carried? && (how.credit.uploadedDelta != 0 || how.credit.downloadedDelta != 0)
    then [(how.a.userId, how.credit)] else []
  }

  function UserFeed(): Feed<UserId, UserUpdate, UserRow> {
    Feed(UserPolicy(), (st: State) => st.userUpdates, (st: State, call: Call, how: How) => CreditsOf(how),
         (st: State, ac: Time, ic: Time) => [])
  }

  lemma CallFeedsUsers(x: Setup, st: State, call: Call, r: Result<string, AnnounceError>, how: How, st': State)
    requires IsOutcome(x, st, call, r, how, st')
    ensures st'.userUpdates == UpsertedAll(UserPolicy().merge, st.userUpdates, CreditsOf(how))
  {
    OutcomeInQueues(x, st, call, r, how, st');
    if how.Carried? {
      UpsertedOne(UserPolicy().merge, st.userUpdates, how.a.userId, how.credit);
    }
  }

  lemma UsersAreFed(x: Setup)
    ensures IsFeed(x, UserFeed())
  {
    var f := UserFeed();
    forall st, call, r, how, st' | IsOutcome(x, st, call, r, how, st')
      ensures IsFed(f, st, f.ofCall(st, call, how), st')
    {
      CallFeedsUsers(x, st, call, r, how, st');
    }
  }

  /** The bytes an event credits to a user */
  function CreditBy(col: CreditColumn, ev: UserEvent, u: UserId): nat {
    if ev.Called? && ev.how.Carried? && ev.how.a.userId == u then CreditIn(col, ev.how.credit) else 0
  }

  function AllCredits(col: CreditColumn, evs: seq<UserEvent>, u: UserId): nat {
    if evs == [] then 0 else CreditBy(col, evs[0], u) + AllCredits(col, evs[1..], u)
  }

  lemma CreditOfEvent(col: CreditColumn, st: State, ev: UserEvent, u: UserId)
    ensures Sum(CreditAmount(col), ValuesFor(UpsertsOf(UserFeed(), st, ev), u)) == CreditBy(col, ev, u)
  {
    var upserts := UpsertsOf(UserFeed(), st, ev);
    if |upserts| > 0 {
      assert upserts[1..] == [];
      assert ValuesFor(upserts, u) == if upserts[0].0 == u then [upserts[0].1] else [];
      assert [upserts[0].1][1..] == [];
    }
  }

  lemma {:induction false} CreditsAreUpdates(col: CreditColumn, states: seq<UserSystem>, evs: seq<UserEvent>, u: UserId)
    requires |states| == |evs| + 1
    ensures Sum(CreditAmount(col), AllUpdates(UserFeed(), states, evs, u)) == AllCredits(col, evs, u)
    decreases |evs|
  {
    if evs != [] {
      CreditsAreUpdates(col, states[1..], evs[1..], u);
      CreditOfEvent(col, states[0].st, evs[0], u);
      SumConcat(CreditAmount(col), ValuesFor(UpsertsOf(UserFeed(), states[0].st, evs[0]), u),
                AllUpdates(UserFeed(), states[1..], evs[1..], u));
    }
  }

  /** In every run of calls, passes and user flushes with arbitrary failures, stored + in flight + queued credit of each
      user grows by exactly what the accepted announces earned, in both directions, while it fits. */
  lemma CreditsReachTheUser(x: Setup, col: CreditColumn, states: seq<UserSystem>, evs: seq<UserEvent>, u: UserId)
    requires IsRun(x, UserFeed(), states, evs) && WellFormed(MachineOf(UserFeed(), states[0]))
    requires var start := View(MachineOf(UserFeed(), states[0]), u);
             AmountOf(CreditAmount(col), start.flight) + AmountOf(CreditAmount(col), start.queued)
             + AllCredits(col, evs, u) <= U64_MAX
    ensures Ledger(CreditAmount(col), CreditTotal(col), View(MachineOf(UserFeed(), states[|evs|]), u))
            == Ledger(CreditAmount(col), CreditTotal(col), View(MachineOf(UserFeed(), states[0]), u))
               + AllCredits(col, evs, u)
  {
    UsersAreFed(x);
    CreditColumnsAddUp(col);
    CreditsAreUpdates(col, states, evs, u);
    AmountsReachTheDatabase(x, UserFeed(), CreditAmount(col), CreditTotal(col), U64_MAX, states, evs, u);
  }
}
