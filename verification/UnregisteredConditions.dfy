/** The rows of info hashes that nobody registered: the exact conditions under which they have the right times. */
module UnregisteredConditions {
  import opened MachineInts
  import opened Results
  import opened Updates
  import opened FlushProtocol
  import opened KeyRuns
  import opened Schedules
  import opened ColumnConditions

  type UnregisteredState = KeyState<UnregisteredUpdate, UnregisteredUpdate>

  function AskedAt(): UnregisteredUpdate -> Time {
    (v: UnregisteredUpdate) => v.updatedAt
  }

  function FirstAskedAt(): UnregisteredUpdate -> Time {
    (v: UnregisteredUpdate) => v.createdAt
  }

  lemma UnregisteredTimes()
    ensures IsNewestTime(UnregisteredPolicy(), AskedAt(), AskedAt())
    ensures IsFirstTime(UnregisteredPolicy(), FirstAskedAt(), FirstAskedAt())
    ensures UnregisteredPolicy().merge == UnregisteredMerge()
  {
    var p := UnregisteredPolicy();
    forall u, v
      ensures AskedAt()(p.merge(u, v)) == Max(u.updatedAt, v.updatedAt)
      ensures FirstAskedAt()(p.merge(u, v)) == Min(u.createdAt, v.createdAt)
    {
      assert p.merge(u, v) == MergedUnregisteredUpdate(u, v);
    }
    forall r, v
      ensures AskedAt()(p.apply(r, v)) == v.updatedAt
      ensures FirstAskedAt()(p.apply(r, v)) == if r.Some? then r.value.createdAt else v.createdAt
    {
      assert p.apply(r, v) == AppliedUnregisteredUpdate(r, v);
    }
  }

  /** In no run is a row put back in time exactly if the times at which the info hash is asked for never fall; and all
      drained runs of a new one store the first of them exactly if none is earlier. */
  lemma UnregisteredTimesIff(s: UnregisteredState, h: seq<UnregisteredUpdate>)
    requires Drained(s)
    ensures (forall es :: KeyLegal(UnregisteredPolicy(), s, es) && Arrivals(es) == h ==>
               NeverGoesBack(UnregisteredPolicy(), AskedAt(), AskedAt(), s, es))
            <==> TimesNeverFall(AskedAt(), TimeOf(AskedAt(), s.stored), h)
    ensures s.stored.None? && h != [] ==>
              ((forall es :: IsDrainingRun(UnregisteredPolicy(), s, h, es) ==>
                  Stores(FirstAskedAt(), KeyRun(UnregisteredPolicy(), s, es), h[0].createdAt))
               <==> NoneBefore(FirstAskedAt(), h, h[0].createdAt))
  {
    UnregisteredTimes();
    NeverGoesBackIff(UnregisteredPolicy(), AskedAt(), AskedAt(), s, h);
    if s.stored.None? && h != [] {
      FirstTimeIff(UnregisteredPolicy(), FirstAskedAt(), FirstAskedAt(), s, h);
    }
  }
}
