/** Acquiring the display lock as one process does it, call after call. */
module LockDirectories {
  import opened Wrappers
  import opened LockFile
  import opened DisplayLock
  import opened DisplayLockRuns

  datatype LockError = AddrInUse

  /** The lock file names a live process. */
  predicate Occupied(s: State)
    requires s.lock.Some? ==> s.lock.value in s.files
  {
    s.lock.Some? &&
    var owner := ParsePid(s.files[s.lock.value]);
    owner.Some? && Live(s, owner.value)
  }

  lemma OccupancySeen(s: State, p: Pid, i: Inode)
    requires s.lock.Some? && s.lock.value in s.files && i !in s.files && p in s.procs && s.procs[p].Bystander?
    ensures forall own, k, seen :: Occupied(Goto(Ready(s, p, i, 0, s.lock), p, Opening(own, k, seen))) == Occupied(s)
  {
    hide FormatPid, ParsePid;
  }

  /** The state once `p` has written its temporary file. */
  function Ready(s: State, p: Pid, i: Inode, attempt: nat, lock: Option<Inode>): State {
    State(lock, s.files[i := FormatPid(p)], s.temps[p := i], s.procs[p := Linking(i, attempt)])
  }

  class LockDirectory {
    var state: State
    ghost var origin: State
    ghost var calls: seq<Event>

    /** The calls made so far are a run of the concurrent protocol. */
    ghost predicate Valid() reads this {
      CanRun(origin, calls) && After(origin, calls) == state
    }

    constructor (s: State)
      ensures Valid() && state == origin == s && calls == []
    {
      state, origin, calls := s, s, [];
    }

    method Call(p: Pid, a: Action)
      requires Valid() && Enabled(state, p, a)
      modifies this
      ensures Valid() && state == Do(old(state), p, a) && origin == old(origin)
    {
      ghost var e := Event(p, a);
      RunCons(state, e, []);
      assert [e] + [] == [e];
      RunConcat(origin, calls, [e]);
      state, calls := Do(state, p, a), calls + [e];
    }

    method WriteTemp(p: Pid, i: Inode)
      requires Valid() && p in state.procs && state.procs[p].Bystander? && i !in state.files
      modifies this
      ensures Valid() && state == Ready(old(state), p, i, 0, old(state.lock)) && origin == old(origin)
    {
      ghost var s := state;
      PidRoundTrip(p);
      hide FormatPid, ParsePid;
      Call(p, Start);
      Call(p, Create(i));
      assert "" + FormatPid(p)[0..][..11] == FormatPid(p);
      assert state.files[i] == "" && |state.files[i]| == 0;
      Call(p, Write(11));
      assert state.files == s.files[i := FormatPid(p)];
      Call(p, SetMode);
      assert state.procs == s.procs[p := Linking(i, 0)];
    }

    /** `inspect_lock` on a lock that is there: is it stale or bogus? */
    method InspectLock(p: Pid) returns (reclaimable: bool)
      requires Valid() && p in state.procs && state.procs[p].Opening? && state.procs[p].seen == state.lock
      requires state.lock.Some? && state.lock.value in state.files
      modifies this
      ensures Valid() && origin == old(origin)
      ensures reclaimable == !Occupied(old(state))
      ensures var f := old(state.procs[p]);
              state == Goto(old(state), p, if reclaimable then Rechecking(f.own, f.attempt, f.seen, f.seen)
                                           else Cleaning(f.own, false))
    {
      hide FormatPid, ParsePid;
      ghost var s := state;
      var content := state.files[state.lock.value];
      Call(p, Open);
      Call(p, Read);
      var owner := ParsePid(content);
      if owner.None? {
        assert state.procs == s.procs[p := state.procs[p]];
        return true;
      }
      var alive := Live(state, owner.value);
      Call(p, Probe(alive));
      assert state.procs == s.procs[p := state.procs[p]];
      return !alive;
    }

    method LinkLock(p: Pid) returns (linked: bool)
      requires Valid() && p in state.procs && state.procs[p].Linking? && p in state.temps
      modifies this
      ensures Valid() && origin == old(origin)
      ensures linked == old(state.lock).None?
      ensures var f := old(state.procs[p]);
              state == Goto(old(state).(lock := if linked then Some(old(state.temps[p])) else old(state.lock)), p,
                            if linked then Cleaning(f.own, true) else Opening(f.own, f.attempt, old(state.lock)))
    {
      hide FormatPid, ParsePid;
      ghost var s := state;
      linked := state.lock.None?;
      Call(p, Link);
      if !linked {
        Call(p, Stat(true));
        assert state.procs == s.procs[p := state.procs[p]];
      }
    }

    method RemoveTemp(p: Pid)
      requires Valid() && p in state.procs && state.procs[p].Cleaning?
      modifies this
      ensures Valid() && origin == old(origin)
      ensures var f := old(state.procs[p]);
              state == Goto(old(state).(temps := old(state.temps) - {p}), p,
                            if f.held then Holding(f.own) else Bystander)
    {
      hide FormatPid, ParsePid;
      Call(p, CleanUp);
    }

    method Reclaim(p: Pid)
      requires Valid() && p in state.procs && state.procs[p].Rechecking? && state.procs[p].seen == state.lock
      requires state.lock.Some?
      modifies this
      ensures Valid() && origin == old(origin)
      ensures var f := old(state.procs[p]);
              state == Goto(old(state).(lock := None), p, NextAttempt(f.own, f.attempt))
    {
      hide FormatPid, ParsePid;
      ghost var s := state;
      Call(p, Recheck(true));
      Call(p, Unlink(true));
      assert state.procs == s.procs[p := state.procs[p]];
    }

    /** A server starting alone gets the lock exactly when the lock file does not name a live process;
        its lock then names it, and otherwise the lock it found is still there. Its temporary name is
        gone either way. */
    method AcquireLock(p: Pid, i: Inode) returns (r: Result<Inode, LockError>)
      requires Valid() && p in state.procs && state.procs[p].Bystander? && i !in state.files
      requires state.lock.Some? ==> state.lock.value in state.files
      modifies this
      ensures Valid() && origin == old(origin)
      ensures r == if Occupied(old(state)) then Err(AddrInUse) else Ok(i)
      ensures state == State(if r.Ok? then Some(i) else old(state.lock),
                             old(state.files)[i := FormatPid(p)],
                             old(state.temps) - {p},
                             old(state.procs)[p := if r.Ok? then Holding(i) else Bystander])
    {
      hide FormatPid, ParsePid, CanRun, After;
      ghost var s := state;
      WriteTemp(p, i);
      assert s.temps[p := i] - {p} == s.temps - {p};
      var attempt := 0;
      while attempt < 2
        invariant Valid() && origin == old(origin)
        invariant 0 <= attempt <= 1
        invariant state == Ready(s, p, i, attempt, if attempt == 0 then s.lock else None)
        invariant attempt == 1 ==> !Occupied(s)
      {
        var linked := LinkLock(p);
        if linked {
          RemoveTemp(p);
          assert state.procs == s.procs[p := Holding(i)];
          return Ok(i);
        }
        OccupancySeen(s, p, i);
        var reclaimable := InspectLock(p);
        if !reclaimable {
          RemoveTemp(p);
          assert state.procs == s.procs[p := Bystander];
          return Err(AddrInUse);
        }
        Reclaim(p);
        assert state.procs == s.procs[p := Linking(i, 1)];
        attempt := attempt + 1;
      }
      assert false;
    }
  }
}
