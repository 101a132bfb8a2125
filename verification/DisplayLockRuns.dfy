/** Runs of concurrently starting servers: when the lock really is exclusive, and when it is not. */
module DisplayLockRuns {
  import opened Wrappers
  import opened LockFile
  import opened DisplayLock

  datatype Event = Event(pid: Pid, action: Action)

  predicate Can(s: State, e: Event) {
    Enabled(s, e.pid, e.action)
  }

  function Next(s: State, e: Event): State
    requires Can(s, e)
  {
    Do(s, e.pid, e.action)
  }

  predicate CanRun(s: State, es: seq<Event>)
    decreases |es|
  {
    es == [] || (Can(s, es[0]) && CanRun(Next(s, es[0]), es[1..]))
  }

  function After(s: State, es: seq<Event>): State
    requires CanRun(s, es)
    decreases |es|
  {
    if es == [] then s else After(Next(s, es[0]), es[1..])
  }

  lemma {:induction false} RunConcat(s: State, a: seq<Event>, b: seq<Event>)
    requires CanRun(s, a) && CanRun(After(s, a), b)
    ensures CanRun(s, a + b) && After(s, a + b) == After(After(s, a), b)
    decreases |a|
  {
    if a == [] {
      assert a + b == b;
    } else {
      assert (a + b)[1..] == a[1..] + b;
      RunConcat(Next(s, a[0]), a[1..], b);
    }
  }

  ghost predicate SafeThroughout(s: State, es: seq<Event>)
    requires CanRun(s, es)
    decreases |es|
  {
    Safe(s) && (es != [] ==> SafeThroughout(Next(s, es[0]), es[1..]))
  }

  /** No reclaim of the run takes away a lock that a live server has linked since the reclaimer's check. */
  predicate SparesTheLiving(s: State, es: seq<Event>)
    requires CanRun(s, es)
    decreases |es|
  {
    es != [] ==> !RemovesLiveLock(s, es[0].pid, es[0].action) && SparesTheLiving(Next(s, es[0]), es[1..])
  }

  /** While a process stands between its final check and its unlink, no other process changes the lock. */
  ghost predicate Undisturbed(s: State, es: seq<Event>)
    requires CanRun(s, es)
    decreases |es|
  {
    es != [] ==>
      && (Next(s, es[0]).lock != s.lock ==> forall q :: q in s.procs && q != es[0].pid ==> !s.procs[q].Unlinking?)
      && Undisturbed(Next(s, es[0]), es[1..])
  }

  lemma InitialInv(s: State)
    requires Initial(s)
    ensures Inv(s)
  {
    forall p | p in s.procs ensures PhaseOk(s, p) {
    }
    forall p, q | p in s.procs && q in s.procs ensures PairOk(s, p, q) {
    }
  }

  /** The invariant survives every step except a reclaim that hits a live server's lock. */
  lemma StepKeepsInv(s: State, e: Event)
    requires Inv(s) && Can(s, e) && !RemovesLiveLock(s, e.pid, e.action)
    ensures Inv(Next(s, e))
  {
    hide Inv, RemovesLiveLock, Do;
    var p := e.pid;
    match e.action {
      case Spawn => SpawnKeeps(s, p);
      case Create(i) => CreateKeeps(s, p, i);
      case Write(n) => WriteKeeps(s, p, n);
      case Link => LinkKeeps(s, p);
      case Unlink(ok) => UnlinkKeeps(s, p, ok);
      case CleanUp => CleanUpKeeps(s, p);
      case DropGuard(ok) => DropKeeps(s, p, ok);
      case _ => MoveKeeps(s, p, e.action);
    }
  }

  lemma RemovalIsUnsafe(s: State, e: Event)
    requires Can(s, e) && RemovesLiveLock(s, e.pid, e.action)
    ensures !Safe(Next(s, e))
  {
    var h :| h in s.procs && Holds(s.procs[h]) && s.lock == Some(s.procs[h].own);
    var t := Next(s, e);
    assert h in t.procs && Holds(t.procs[h]) && t.lock == None;
  }

  /** However many servers start, in whatever interleaving: every live holder's lock stays in place
      throughout the run exactly when no reclaim unlinks a lock that a live server linked after the check. */
  lemma {:induction false} RunSafeIff(s: State, es: seq<Event>)
    requires Inv(s) && CanRun(s, es)
    ensures SafeThroughout(s, es) <==> SparesTheLiving(s, es)
    decreases |es|
  {
    SafeWhenInv(s);
    if es == [] {
    } else {
      if RemovesLiveLock(s, es[0].pid, es[0].action) {
        RemovalIsUnsafe(s, es[0]);
      } else {
        StepKeepsInv(s, es[0]);
        RunSafeIff(Next(s, es[0]), es[1..]);
      }
    }
  }

  /** In a safe state at most one live process has the lock, and the lock file names it. */
  lemma AtMostOneHolder(s: State, p: Pid, q: Pid)
    requires Safe(s) && p in s.procs && q in s.procs && Holds(s.procs[p]) && Holds(s.procs[q])
    ensures p == q && s.lock.Some? && s.lock.value in s.files && ParsePid(s.files[s.lock.value]) == Some(p)
  {
    PidRoundTrip(p);
    PidRoundTrip(q);
  }

  /** Of the steps of other processes, exactly the late reclaims take a live holder's lock away. */
  lemma LockOutlivesOthersSteps(s: State, e: Event, h: Pid)
    requires Inv(s) && Can(s, e) && h in s.procs && Holds(s.procs[h]) && e.pid != h
    ensures s.lock == Some(s.procs[h].own)
    ensures Next(s, e).lock == s.lock <==> !RemovesLiveLock(s, e.pid, e.action)
  {
    SafeWhenInv(s);
    OthersStay(s, e, h);
    if RemovesLiveLock(s, e.pid, e.action) {
      RemovalEmpties(s, e);
    } else {
      hide Inv, RemovesLiveLock, Do, Enabled;
      StepKeepsInv(s, e);
      SafeWhenInv(Next(s, e));
    }
  }

  lemma RemovalEmpties(s: State, e: Event)
    requires Can(s, e) && RemovesLiveLock(s, e.pid, e.action)
    ensures Next(s, e).lock == None
  {
  }

  ghost predicate TargetsInPlace(s: State) {
    forall p :: p in s.procs && s.procs[p].Unlinking? ==> s.lock == Some(s.procs[p].target)
  }

  /** Nobody else touching the lock between a reclaimer's check and its unlink is enough. */
  lemma {:induction false} UndisturbedSparesTheLiving(s: State, es: seq<Event>)
    requires TargetsInPlace(s) && CanRun(s, es) && Undisturbed(s, es)
    ensures SparesTheLiving(s, es)
    decreases |es|
  {
    if es == [] {
    } else {
      TargetsStay(s, es[0]);
      UndisturbedSparesTheLiving(Next(s, es[0]), es[1..]);
    }
  }

  lemma OthersStay(s: State, e: Event, q: Pid)
    requires Can(s, e) && q != e.pid
    ensures q in Next(s, e).procs <==> q in s.procs
    ensures q in s.procs ==> Next(s, e).procs[q] == s.procs[q]
  {
    hide Do, Enabled;
  }

  lemma OwnTarget(s: State, e: Event)
    requires Can(s, e) && e.pid in Next(s, e).procs && Next(s, e).procs[e.pid].Unlinking?
    ensures Next(s, e).lock == Some(Next(s, e).procs[e.pid].target)
  {
    hide FormatPid, ParsePid, Live;
  }

  lemma TargetsStay(s: State, e: Event)
    requires TargetsInPlace(s) && Can(s, e)
    requires Next(s, e).lock != s.lock ==> forall q :: q in s.procs && q != e.pid ==> !s.procs[q].Unlinking?
    ensures TargetsInPlace(Next(s, e))
    ensures !RemovesLiveLock(s, e.pid, e.action)
  {
    hide FormatPid, ParsePid, Live, Do;
    var t := Next(s, e);
    forall q | q in t.procs && t.procs[q].Unlinking? ensures t.lock == Some(t.procs[q].target) {
      if q == e.pid {
        OwnTarget(s, e);
      } else {
        OthersStay(s, e, q);
      }
    }
  }

  /** With starts of one display serialised around the reclaim, the lock is exclusive in every run. */
  lemma UndisturbedRunsAreSafe(s: State, es: seq<Event>)
    requires Initial(s) && CanRun(s, es) && Undisturbed(s, es)
    ensures SafeThroughout(s, es)
  {
    InitialInv(s);
    UndisturbedSparesTheLiving(s, es);
    RunSafeIff(s, es);
  }

  // ----- The window that remains -----

  /** Writing the temporary file. */
  function Prepare(p: Pid, i: Inode): seq<Event> {
    [Event(p, Start), Event(p, Create(i)), Event(p, Write(11)), Event(p, SetMode)]
  }

  /** Finding a lock in the way, and judging it. */
  function Inspect(p: Pid): seq<Event> {
    [Event(p, Link), Event(p, Stat(true)), Event(p, Open), Event(p, Read), Event(p, Recheck(true))]
  }

  lemma RunCons(s: State, e: Event, es: seq<Event>)
    requires Can(s, e) && CanRun(Next(s, e), es)
    ensures CanRun(s, [e] + es) && After(s, [e] + es) == After(Next(s, e), es)
  {
    assert ([e] + es)[1..] == es;
  }

  lemma Prepared(s: State, p: Pid, i: Inode)
    requires p in s.procs && s.procs[p].Bystander? && i !in s.files
    ensures CanRun(s, Prepare(p, i))
    ensures After(s, Prepare(p, i))
         == s.(files := s.files[i := FormatPid(p)], temps := s.temps[p := i],
               procs := s.procs[p := Linking(i, 0)])
  {
    PidRoundTrip(p);
    hide ParsePid, FormatPid, CanRun, After;
    var es := Prepare(p, i);
    var s1 := Next(s, es[0]);
    var s2 := Next(s1, es[1]);
    assert "" + FormatPid(p)[0..][..11] == FormatPid(p);
    var s3 := Next(s2, es[2]);
    assert s3.files == s.files[i := FormatPid(p)];
    var s4 := Next(s3, es[3]);
    assert s4.procs == s.procs[p := Linking(i, 0)];
    assert [es[0]] + [es[1], es[2], es[3]] == es;
    assert [es[1]] + [es[2], es[3]] == [es[1], es[2], es[3]];
    assert [es[2]] + [es[3]] == [es[2], es[3]];
    assert [es[3]] + [] == [es[3]];
    RunNil(s4);
    RunCons(s3, es[3], []);
    RunCons(s2, es[2], [es[3]]);
    RunCons(s1, es[1], [es[2], es[3]]);
    RunCons(s, es[0], [es[1], es[2], es[3]]);
  }

  lemma RunNil(s: State)
    ensures CanRun(s, []) && After(s, []) == s
  {
  }

  lemma Blocked(s: State, p: Pid, i: Inode)
    requires p in s.procs && s.procs[p] == Linking(i, 0) && p in s.temps && s.lock.Some?
    ensures CanRun(s, [Event(p, Link), Event(p, Stat(true))])
    ensures After(s, [Event(p, Link), Event(p, Stat(true))]) == s.(procs := s.procs[p := Opening(i, 0, s.lock)])
  {
    hide ParsePid, FormatPid, CanRun, After;
    var s1 := Next(s, Event(p, Link));
    assert s1 == s.(procs := s.procs[p := Looking(i, 0)]);
    var s2 := Next(s1, Event(p, Stat(true)));
    assert s2.procs == s.procs[p := Opening(i, 0, s.lock)];
    assert [Event(p, Link)] + [Event(p, Stat(true))] == [Event(p, Link), Event(p, Stat(true))];
    assert [Event(p, Stat(true))] + [] == [Event(p, Stat(true))];
    RunNil(s2);
    RunCons(s1, Event(p, Stat(true)), []);
    RunCons(s, Event(p, Link), [Event(p, Stat(true))]);
  }

  lemma Condemned(s: State, p: Pid, i: Inode)
    requires p in s.procs && s.procs[p] == Opening(i, 0, s.lock)
    requires s.lock.Some? && s.lock.value in s.files && ParsePid(s.files[s.lock.value]).None?
    ensures var es := [Event(p, Open), Event(p, Read), Event(p, Recheck(true))];
            CanRun(s, es) && After(s, es) == s.(procs := s.procs[p := Unlinking(i, 0, s.lock.value)])
  {
    hide ParsePid, FormatPid, CanRun, After;
    var j := s.lock.value;
    var s1 := Next(s, Event(p, Open));
    assert s1 == s.(procs := s.procs[p := Reading(i, 0, s.lock, j)]);
    var s2 := Next(s1, Event(p, Read));
    assert s2.procs == s.procs[p := Rechecking(i, 0, s.lock, Some(j))];
    var s3 := Next(s2, Event(p, Recheck(true)));
    assert s3.procs == s.procs[p := Unlinking(i, 0, j)];
    assert [Event(p, Recheck(true))] + [] == [Event(p, Recheck(true))];
    assert [Event(p, Read)] + [Event(p, Recheck(true))] == [Event(p, Read), Event(p, Recheck(true))];
    assert [Event(p, Open)] + [Event(p, Read), Event(p, Recheck(true))]
        == [Event(p, Open), Event(p, Read), Event(p, Recheck(true))];
    RunNil(s3);
    RunCons(s2, Event(p, Recheck(true)), []);
    RunCons(s1, Event(p, Read), [Event(p, Recheck(true))]);
    RunCons(s, Event(p, Open), [Event(p, Read), Event(p, Recheck(true))]);
  }

  lemma Inspected(s: State, p: Pid, i: Inode)
    requires p in s.procs && s.procs[p] == Linking(i, 0) && p in s.temps
    requires s.lock.Some? && s.lock.value in s.files && ParsePid(s.files[s.lock.value]).None?
    ensures CanRun(s, Inspect(p))
    ensures After(s, Inspect(p)) == s.(procs := s.procs[p := Unlinking(i, 0, s.lock.value)])
  {
    hide ParsePid, FormatPid, CanRun, After;
    Blocked(s, p, i);
    var front := [Event(p, Link), Event(p, Stat(true))];
    var rest := [Event(p, Open), Event(p, Read), Event(p, Recheck(true))];
    var t := After(s, front);
    Condemned(t, p, i);
    RunConcat(s, front, rest);
    assert front + rest == Inspect(p);
    assert After(t, rest).procs == s.procs[p := Unlinking(i, 0, s.lock.value)];
  }

  /** Reclaiming the lock that was judged, and linking the own one. */
  function Take(p: Pid): seq<Event> {
    [Event(p, Unlink(true)), Event(p, Link)]
  }

  lemma Taken(s: State, p: Pid, i: Inode, j: Inode)
    requires p in s.procs && s.procs[p] == Unlinking(i, 0, j) && p in s.temps && s.temps[p] == i
    ensures CanRun(s, Take(p))
    ensures After(s, Take(p)) == s.(lock := Some(i), procs := s.procs[p := Cleaning(i, true)])
  {
    hide ParsePid, FormatPid;
    var s1 := Next(s, Event(p, Unlink(true)));
    var s2 := Next(s1, Event(p, Link));
    assert s2.procs == s.procs[p := Cleaning(i, true)];
    RunCons(s1, Event(p, Link), []);
    RunCons(s, Event(p, Unlink(true)), [Event(p, Link)]);
    assert [Event(p, Unlink(true))] + [Event(p, Link)] == Take(p);
    assert [Event(p, Link)] + [] == [Event(p, Link)];
  }

  /** Two starters that find a bogus lock, pass their checks in turn and reclaim in turn both end up with
      the guard: the second one has unlinked the first one's lock. */
  lemma TwoHolders(p: Pid, q: Pid) returns (s: State, es: seq<Event>)
    requires p != q
    ensures Initial(s) && CanRun(s, es)
    ensures var t := After(s, es); p in t.procs && q in t.procs && Holds(t.procs[p]) && Holds(t.procs[q])
  {
    s := State(Some(0), map[0 := ""], map[], map[p := Bystander, q := Bystander]);
    var s1 := OnTheBrink(s, p, 1);
    var s2 := OnTheBrink(s1, q, 2);
    Taken(s2, p, 1, 0);
    var s3 := After(s2, Take(p));
    Taken(s3, q, 2, 0);
    es := Brink(p, 1) + (Brink(q, 2) + (Take(p) + Take(q)));
    RunConcat(s2, Take(p), Take(q));
    RunConcat(s1, Brink(q, 2), Take(p) + Take(q));
    RunConcat(s, Brink(p, 1), Brink(q, 2) + (Take(p) + Take(q)));
  }

  function Brink(p: Pid, i: Inode): seq<Event> {
    Prepare(p, i) + Inspect(p)
  }

  lemma OnTheBrink(s: State, p: Pid, i: Inode) returns (t: State)
    requires p in s.procs && s.procs[p].Bystander? && i !in s.files
    requires s.lock.Some? && s.lock.value in s.files && ParsePid(s.files[s.lock.value]).None?
    ensures CanRun(s, Brink(p, i)) && t == After(s, Brink(p, i))
    ensures t == s.(files := s.files[i := FormatPid(p)], temps := s.temps[p := i],
                    procs := s.procs[p := Unlinking(i, 0, s.lock.value)])
  {
    Prepared(s, p, i);
    t := After(s, Prepare(p, i));
    Inspected(t, p, i);
    RunConcat(s, Prepare(p, i), Inspect(p));
    t := After(t, Inspect(p));
  }

  // ----- Why a start fails -----

  /** What a process has met with since it last started, told from its calls and the files they found: how many
      of its links found a lock in the way, which file it opened last as the lock, which pid it read there,
      which such pid was answered for when it probed it, whether one of its calls failed, and whether it has
      dropped the guard. */
  datatype Trail = Trail(begun: bool, blocked: nat, found: Option<Inode>, named: Option<Pid>, answered: Option<Pid>,
                         failed: bool, dropped: bool)

  function Fresh(begun: bool): Trail {
    Trail(begun, 0, None, None, None, false, false)
  }

  function Note(s: State, e: Event, p: Pid, b: Trail): Trail {
    if e.pid != p then b
    else
      match e.action
      case Start => Fresh(true)
      case Link => if s.lock.Some? then b.(blocked := b.blocked + 1) else b
      case Open => b.(found := s.lock)
      case Read =>
        b.(named := if b.found.Some? && b.found.value in s.files then ParsePid(s.files[b.found.value]) else None)
      case Probe(answered) => if answered then b.(answered := b.named) else b
      case Fail => b.(failed := true)
      case DropGuard(_) => b.(dropped := true)
      case _ => b
  }

  ghost function TrailOf(s: State, es: seq<Event>, p: Pid, b: Trail): Trail
    requires CanRun(s, es)
    decreases |es|
  {
    if es == [] then b else TrailOf(Next(s, es[0]), es[1..], p, Note(s, es[0], p, b))
  }

  /** Reasons to give up: the lock names a process that answers, a call failed, or both links found a lock. */
  predicate MustGiveUp(b: Trail) {
    b.answered.Some? || b.failed || b.blocked >= 2
  }

  /** Where a process can stand with such a trail. */
  predicate Matches(f: Phase, b: Trail) {
    match f
    case Starting => b.blocked == 0 && !MustGiveUp(b)
    case Writing(_) => b.blocked == 0 && !MustGiveUp(b)
    case Linking(_, k) => b.blocked == k <= 1 && !MustGiveUp(b)
    case Looking(_, k) => Looks(b, k)
    case Opening(_, k, _) => Looks(b, k)
    case Reading(_, k, _, file) => Looks(b, k) && b.found == Some(file)
    case Probing(_, k, _, file, owner) => Looks(b, k) && b.named == Some(owner)
    case Rechecking(_, k, _, _) => Looks(b, k)
    case Unlinking(_, k, _) => Looks(b, k)
    case Cleaning(_, held) => held <==> !MustGiveUp(b)
    case Holding(_) => !MustGiveUp(b)
    case Bystander => b.begun && !b.dropped ==> MustGiveUp(b)
    case Dead => true
  }

  predicate Looks(b: Trail, attempt: nat) {
    attempt <= 1 && b.blocked == attempt + 1 && b.answered.None? && !b.failed
  }

  predicate MatchesAt(s: State, p: Pid, b: Trail) {
    if p in s.procs then Matches(s.procs[p], b) else !b.begun
  }

  lemma TrailStep(s: State, e: Event, p: Pid, b: Trail)
    requires Can(s, e) && MatchesAt(s, p, b)
    ensures MatchesAt(Next(s, e), p, Note(s, e, p, b))
  {
    if e.pid != p {
      OthersStay(s, e, p);
    } else if e.action.Link? || e.action.Stat? || e.action.Open? {
      TrailLook(s, e, p, b);
    } else if e.action.Read? || e.action.Probe? || e.action.Recheck? {
      TrailInspection(s, e, p, b);
    } else if e.action.Unlink? || e.action.CleanUp? || e.action.DropGuard? || e.action.Fail? {
      TrailEnd(s, e, p, b);
    } else {
      TrailStart(s, e, p, b);
    }
    hide Do, Enabled;
  }

  lemma TrailEnd(s: State, e: Event, p: Pid, b: Trail)
    requires Can(s, e) && MatchesAt(s, p, b) && e.pid == p
    requires e.action.Unlink? || e.action.CleanUp? || e.action.DropGuard? || e.action.Fail?
    ensures MatchesAt(Next(s, e), p, Note(s, e, p, b))
  {
    hide FormatPid, ParsePid, Live;
  }

  lemma TrailStart(s: State, e: Event, p: Pid, b: Trail)
    requires Can(s, e) && MatchesAt(s, p, b) && e.pid == p
    requires e.action.Spawn? || e.action.Start? || e.action.Create? || e.action.Write? || e.action.SetMode? || e.action.Crash?
    ensures MatchesAt(Next(s, e), p, Note(s, e, p, b))
  {
    hide FormatPid, ParsePid, Live;
  }

  lemma TrailInspection(s: State, e: Event, p: Pid, b: Trail)
    requires Can(s, e) && MatchesAt(s, p, b) && e.pid == p
    requires e.action.Read? || e.action.Probe? || e.action.Recheck?
    ensures MatchesAt(Next(s, e), p, Note(s, e, p, b))
  {
    hide FormatPid, ParsePid, Live;
  }

  lemma TrailLook(s: State, e: Event, p: Pid, b: Trail)
    requires Can(s, e) && MatchesAt(s, p, b) && e.pid == p && (e.action.Link? || e.action.Stat? || e.action.Open?)
    ensures MatchesAt(Next(s, e), p, Note(s, e, p, b))
  {
    hide FormatPid, ParsePid, Live;
  }

  lemma {:induction false} TrailMatches(s: State, es: seq<Event>, p: Pid, b: Trail)
    requires CanRun(s, es) && MatchesAt(s, p, b)
    ensures MatchesAt(After(s, es), p, TrailOf(s, es, p, b))
    decreases |es|
  {
    hide Do, Enabled, MatchesAt, Note;
    if es == [] {
    } else {
      TrailStep(s, es[0], p, b);
      TrailMatches(Next(s, es[0]), es[1..], p, Note(s, es[0], p, b));
    }
  }

  /** Over every run: a start that has come to its end has the guard exactly when nothing that it met with since
      it began is a reason to give up; and who no longer starts without having had the guard met with one. */
  lemma StartFailsForAReason(s: State, es: seq<Event>, p: Pid)
    requires Initial(s) && CanRun(s, es) && p in After(s, es).procs
    ensures var f, b := After(s, es).procs[p], TrailOf(s, es, p, Fresh(false));
            && (f.Cleaning? ==> (f.held <==> !MustGiveUp(b)))
            && (f.Holding? ==> !MustGiveUp(b))
            && (f.Bystander? && b.begun && !b.dropped ==> MustGiveUp(b))
  {
    assert MatchesAt(s, p, Fresh(false));
    TrailMatches(s, es, p, Fresh(false));
  }

  /** While the invariant holds, a start always has a next call to make, which need not fail. */
  lemma NeverStuck(s: State, p: Pid) returns (a: Action)
    requires Inv(s) && Live(s, p) && !s.procs[p].Bystander? && !s.procs[p].Holding?
    ensures Enabled(s, p, a) && !a.Crash? && !a.Fail?
  {
    assert PhaseOk(s, p);
    hide Inv, FormatPid, ParsePid;
    match s.procs[p] {
      case Starting =>
        var i := UnusedInode(s.files.Keys);
        a := Create(i);
      case Writing(own) =>
        var n := |FormatPid(p)| - |s.files[own]|;
        a := if n > 0 then Write(n) else SetMode;
      case Linking(_, _) => a := Link;
      case Looking(_, _) => a := Stat(true);
      case Opening(_, _, _) => a := Open;
      case Reading(_, _, _, _) => a := Read;
      case Probing(_, _, _, _, _) => a := Probe(true);
      case Rechecking(_, _, _, _) => a := Recheck(true);
      case Unlinking(_, _, _) => a := Unlink(true);
      case Cleaning(_, _) => a := CleanUp;
    }
  }

  /** There is always an inode that no file has. */
  lemma {:induction false} UnusedInode(used: set<Inode>) returns (n: Inode)
    ensures n !in used && forall i :: i in used ==> i < n
    decreases used
  {
    if used == {} {
      n := 0;
    } else {
      var x :| x in used;
      var m := UnusedInode(used - {x});
      n := if x < m then m else x + 1;
      assert forall i :: i in used ==> i == x || i in used - {x};
    }
  }

  // ----- How long a start takes -----

  /** How many more calls a process can make before it has the guard or has given up. */
  function CallsLeft(s: State, p: Pid): nat {
    if p !in s.procs then 0
    else
      var f := s.procs[p];
      match f
      case Bystander => 0
      case Dead => 0
      case Holding(_) => 1
      case Cleaning(_, _) => 2
      case Unlinking(_, k, _) => Again(k) + 3
      case Rechecking(_, k, _, _) => Again(k) + 4
      case Probing(_, k, _, _, _) => Again(k) + 5
      case Reading(_, k, _, _) => Again(k) + 6
      case Opening(_, k, _) => Again(k) + 7
      case Looking(_, k) => Again(k) + 8
      case Linking(_, k) => Again(k) + 9
      case Writing(own) =>
        17 + if own in s.files && |s.files[own]| < |FormatPid(p)| then |FormatPid(p)| - |s.files[own]| else 0
      case Starting => 18 + |FormatPid(p)|
  }

  function Again(attempt: nat): nat {
    if attempt == 0 then 7 else 0
  }

  lemma CallsRunOut(s: State, e: Event)
    requires Can(s, e) && !e.action.Spawn? && !e.action.Start? && !e.action.Crash?
    ensures CallsLeft(Next(s, e), e.pid) < CallsLeft(s, e.pid)
  {
    hide FormatPid, ParsePid, Live;
    if e.action.Write? || e.action.SetMode? || e.action.Create? {
      WritingRunsOut(s, e);
    } else if e.action.Unlink? || e.action.CleanUp? || e.action.DropGuard? || e.action.Fail? {
      EndPhase(s, e);
    } else {
      InspectionPhase(s, e);
    }
  }

  lemma WritingRunsOut(s: State, e: Event)
    requires Can(s, e) && (e.action.Write? || e.action.SetMode? || e.action.Create?)
    ensures CallsLeft(Next(s, e), e.pid) < CallsLeft(s, e.pid)
  {
    hide FormatPid, ParsePid, Live;
  }

  lemma EndPhase(s: State, e: Event)
    requires Can(s, e) && (e.action.Unlink? || e.action.CleanUp? || e.action.DropGuard? || e.action.Fail?)
    ensures CallsLeft(Next(s, e), e.pid) < CallsLeft(s, e.pid)
  {
    hide FormatPid, ParsePid, Live;
  }

  lemma InspectionPhase(s: State, e: Event)
    requires Can(s, e)
    requires e.action.Link? || e.action.Stat? || e.action.Open? || e.action.Read? || e.action.Probe? || e.action.Recheck?
    ensures CallsLeft(Next(s, e), e.pid) < CallsLeft(s, e.pid)
  {
    hide FormatPid, ParsePid, Live;
  }

  /** Processes that are still writing write to files of their own. */
  ghost predicate WritersApart(s: State) {
    && (forall p :: p in s.procs && s.procs[p].Writing? ==> s.procs[p].own in s.files)
    && (forall p, q :: p in s.procs && q in s.procs && p != q && s.procs[p].Writing? && s.procs[q].Writing?
                       ==> s.procs[p].own != s.procs[q].own)
  }

  /** What a step does to files and writers. */
  lemma WritingStep(s: State, e: Event)
    requires Can(s, e) && !e.action.Spawn?
    ensures var t := Next(s, e);
            && s.files.Keys <= t.files.Keys
            && (t.procs[e.pid].Writing? ==>
                  if e.action.Create? then t.procs[e.pid].own !in s.files && t.procs[e.pid].own in t.files
                  else t.procs[e.pid] == s.procs[e.pid])
            && (e.action.Write? ==> s.procs[e.pid].Writing?)
            && forall i :: i in s.files && !(e.action.Write? && i == s.procs[e.pid].own) ==> t.files[i] == s.files[i]
  {
    hide FormatPid, ParsePid, Live;
  }

  /** Every step keeps the writers apart, harmful reclaims included. */
  lemma WritersStayApart(s: State, e: Event)
    requires WritersApart(s) && Can(s, e)
    ensures WritersApart(Next(s, e))
  {
    var t := Next(s, e);
    if e.action.Spawn? {
      assert t.procs == s.procs[e.pid := Bystander] && t.files == s.files;
    } else {
      WritingStep(s, e);
    }
    hide Do, Enabled;
    forall q | q in t.procs && q != e.pid ensures q in s.procs && t.procs[q] == s.procs[q] {
      OthersStay(s, e, q);
    }
  }

  /** So they are apart in every state that can be reached. */
  lemma {:induction false} ReachableWritersApart(s: State, es: seq<Event>)
    requires (Initial(s) || WritersApart(s)) && CanRun(s, es)
    ensures WritersApart(After(s, es))
    decreases |es|
  {
    hide Do, Enabled;
    if es == [] {
    } else {
      WritersStayApart(s, es[0]);
      ReachableWritersApart(Next(s, es[0]), es[1..]);
    }
  }

  lemma OthersCallsStay(s: State, e: Event, q: Pid)
    requires WritersApart(s) && Can(s, e) && q != e.pid
    ensures CallsLeft(Next(s, e), q) == CallsLeft(s, q)
  {
    OthersStay(s, e, q);
    if q in s.procs && s.procs[q].Writing? {
      if e.action.Spawn? {
        assert Next(s, e).files == s.files;
      } else {
        WritingStep(s, e);
      }
    }
    hide FormatPid, ParsePid, Live, Do, Enabled;
  }

  function CallsOf(es: seq<Event>, p: Pid): nat {
    if es == [] then 0 else (if es[0].pid == p then 1 else 0) + CallsOf(es[1..], p)
  }

  lemma CallsLeftBound(s: State, p: Pid)
    ensures CallsLeft(s, p) <= 29
  {
    PidRoundTrip(p);
    hide FormatPid;
  }

  /** After it has begun, a server that does not begin again makes at most so many calls: twenty-nine. */
  lemma {:induction false} StartTakesBoundedCalls(s: State, es: seq<Event>, p: Pid)
    requires WritersApart(s) && CanRun(s, es) && p in s.procs
    requires forall e :: e in es && e.pid == p ==> !e.action.Spawn? && !e.action.Start? && !e.action.Crash?
    ensures CallsOf(es, p) <= CallsLeft(s, p) <= 29
    decreases |es|
  {
    hide CallsLeft, WritersApart, Enabled, Do;
    CallsLeftBound(s, p);
    if es == [] {
    } else {
      var e := es[0];
      var t := Next(s, e);
      WritersStayApart(s, e);
      if e.pid == p {
        assert e in es;
        CallsRunOut(s, e);
      } else {
        OthersCallsStay(s, e, p);
        OthersStay(s, e, p);
      }
      StartTakesBoundedCalls(t, es[1..], p);
    }
  }
}
