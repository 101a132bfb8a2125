/** The display lock: any number of starting servers, one file-system call at a time. */
module DisplayLock {
  import opened Wrappers
  import opened LockFile

  type Inode = nat

  /** Where a process stands between two system calls. `own` is the inode of its temporary file. */
  datatype Phase =
    | Bystander
    | Starting
    | Writing(own: Inode)
    | Linking(own: Inode, attempt: nat)
    | Looking(own: Inode, attempt: nat)
    | Opening(own: Inode, attempt: nat, seen: Option<Inode>)
    | Reading(own: Inode, attempt: nat, seen: Option<Inode>, file: Inode)
    | Probing(own: Inode, attempt: nat, seen: Option<Inode>, file: Inode, owner: Pid)
    | Rechecking(own: Inode, attempt: nat, seen: Option<Inode>, judged: Option<Inode>)
    | Unlinking(own: Inode, attempt: nat, target: Inode)
    | Cleaning(own: Inode, held: bool)
    | Holding(own: Inode)
    | Dead

  /** What every process sees, and where each of them stands. A file keeps its contents after its last
      name is gone, since a starter may still have it open. */
  datatype State = State(lock: Option<Inode>, files: map<Inode, string>, temps: map<Pid, Inode>,
                         procs: map<Pid, Phase>)

  datatype Action =
    | Spawn
    | Start
    | Create(inode: Inode)
    | Write(count: nat)
    | SetMode
    | Link
    | Stat(statOk: bool)
    | Open
    | Read
    | Probe(answered: bool)
    | Recheck(recheckOk: bool)
    | Unlink(unlinkOk: bool)
    | CleanUp
    | DropGuard(dropOk: bool)
    | Fail
    | Crash

  predicate Live(s: State, p: Pid) {
    p in s.procs && !s.procs[p].Dead?
  }

  /** The process has the guard: its `link` succeeded and it has neither dropped the guard nor died. */
  predicate Holds(f: Phase) {
    f.Holding? || (f.Cleaning? && f.held)
  }

  predicate Enabled(s: State, p: Pid, a: Action) {
    if a.Spawn? then p !in s.procs
    else if p !in s.procs then false
    else
      var f := s.procs[p];
      match a
      case Start => f.Bystander?
      case Create(i) => f.Starting? && i !in s.files
      case Write(n) => f.Writing? && f.own in s.files && 0 < n <= |FormatPid(p)| - |s.files[f.own]|
      case SetMode => f.Writing? && f.own in s.files && |s.files[f.own]| == |FormatPid(p)|
      case Link => f.Linking? && p in s.temps
      case Stat(_) => f.Looking?
      case Open => f.Opening?
      case Read => f.Reading? && f.file in s.files
      case Probe(answered) => f.Probing? && (Live(s, f.owner) ==> answered)
      case Recheck(_) => f.Rechecking?
      case Unlink(_) => f.Unlinking?
      case CleanUp => f.Cleaning?
      case DropGuard(_) => f.Holding?
      case Fail => f.Starting? || f.Writing? || f.Linking? || f.Opening? || f.Reading?
      case Crash => !f.Dead?
  }

  /** The second attempt is the last one. */
  function NextAttempt(own: Inode, attempt: nat): Phase {
    if attempt == 0 then Linking(own, 1) else Cleaning(own, false)
  }

  /** One system call of one process, with what it makes of the answer. */
  function Do(s: State, p: Pid, a: Action): (t: State)
    requires Enabled(s, p, a)
    ensures p in t.procs && t.procs == s.procs[p := t.procs[p]]
  {
    if a.Spawn? then s.(procs := s.procs[p := Bystander])
    else
      var f := s.procs[p];
      match a
      case Start => Goto(s, p, Starting)
      case Create(i) => Goto(s.(files := s.files[i := ""], temps := s.temps[p := i]), p, Writing(i))
      case Write(n) => s.(files := s.files[f.own := s.files[f.own] + FormatPid(p)[|s.files[f.own]|..][..n]])
      case SetMode => Goto(s, p, Linking(f.own, 0))
      case Link =>
        if s.lock.None? then Goto(s.(lock := Some(s.temps[p])), p, Cleaning(f.own, true))
        else Goto(s, p, Looking(f.own, f.attempt))
      case Stat(ok) => Goto(s, p, Opening(f.own, f.attempt, if ok then s.lock else None))
      case Open =>
        if s.lock.None? then Goto(s, p, Rechecking(f.own, f.attempt, f.seen, None))
        else Goto(s, p, Reading(f.own, f.attempt, f.seen, s.lock.value))
      case Read =>
        var owner := ParsePid(s.files[f.file]);
        if owner.None? then Goto(s, p, Rechecking(f.own, f.attempt, f.seen, Some(f.file)))
        else Goto(s, p, Probing(f.own, f.attempt, f.seen, f.file, owner.value))
      case Probe(answered) =>
        if answered then Goto(s, p, Cleaning(f.own, false))
        else Goto(s, p, Rechecking(f.own, f.attempt, f.seen, Some(f.file)))
      case Recheck(ok) =>
        if ok && f.seen.Some? && s.lock == f.seen then Goto(s, p, Unlinking(f.own, f.attempt, f.seen.value))
        else Goto(s, p, NextAttempt(f.own, f.attempt))
      case Unlink(ok) => Goto(if ok then s.(lock := None) else s, p, NextAttempt(f.own, f.attempt))
      case CleanUp => Goto(s.(temps := s.temps - {p}), p, if f.held then Holding(f.own) else Bystander)
      case DropGuard(ok) => Goto(if ok then s.(lock := None) else s, p, Bystander)
      case Fail => Goto(s, p, if f.Starting? || f.Writing? then Bystander else Cleaning(f.own, false))
      case Crash => Goto(s, p, Dead)
  }

  function Goto(s: State, p: Pid, f: Phase): State {
    s.(procs := s.procs[p := f])
  }

  // ----- What holds in every state -----

  /** The process still has to link its temporary file. */
  predicate BeforeLink(f: Phase) {
    f.Writing? || f.Linking? || f.Looking? || f.Opening? || f.Reading? || f.Probing? || f.Rechecking?
    || f.Unlinking? || (f.Cleaning? && !f.held)
  }

  predicate Owns(f: Phase) {
    BeforeLink(f) || Holds(f)
  }

  /** The inodes a reclaiming starter has found behind the lock's name. */
  function Refs(f: Phase): set<Inode> {
    match f
    case Opening(_, _, seen) => Elem(seen)
    case Reading(_, _, seen, file) => Elem(seen) + {file}
    case Probing(_, _, seen, file, _) => Elem(seen) + {file}
    case Rechecking(_, _, seen, judged) => Elem(seen) + Elem(judged)
    case Unlinking(_, _, target) => {target}
    case _ => {}
  }

  function Elem(o: Option<Inode>): set<Inode> {
    if o.Some? then {o.value} else {}
  }

  /** The inode a starter has judged stale or bogus. */
  function Judged(f: Phase): Option<Inode> {
    match f
    case Rechecking(_, _, _, judged) => judged
    case Unlinking(_, _, target) => Some(target)
    case _ => None
  }

  /** The lock looked at first and the lock inspected are the same if it is that lock still. */
  predicate Bracketed(lock: Option<Inode>, f: Phase) {
    match f
    case Reading(_, _, seen, file) => seen.Some? && lock == seen ==> file == seen.value
    case Probing(_, _, seen, file, _) => seen.Some? && lock == seen ==> file == seen.value
    case Rechecking(_, _, seen, judged) => seen.Some? && lock == seen ==> judged == seen
    case _ => true
  }

  ghost predicate PhaseOk(s: State, p: Pid)
    requires p in s.procs
  {
    var f := s.procs[p];
    && (Owns(f) ==> f.own in s.files)
    && (BeforeLink(f) ==> s.lock != Some(f.own))
    && (BeforeLink(f) && !f.Cleaning? ==> p in s.temps && s.temps[p] == f.own)
    && (f.Writing? ==> s.files[f.own] <= FormatPid(p))
    && (Owns(f) && !f.Writing? && !f.Cleaning? ==> s.files[f.own] == FormatPid(p))
    && (Holds(f) ==> s.lock == Some(f.own) && s.files[f.own] == FormatPid(p))
    && Refs(f) <= s.files.Keys
    && Bracketed(s.lock, f)
    && (f.Probing? ==> ParsePid(s.files[f.file]) == Some(f.owner))
  }

  ghost predicate PairOk(s: State, p: Pid, q: Pid)
    requires p in s.procs && q in s.procs
  {
    var f, g := s.procs[p], s.procs[q];
    && (p != q && Owns(f) && Owns(g) ==> f.own != g.own)
    && (BeforeLink(g) ==> g.own !in Refs(f))
    && (Holds(g) ==> Judged(f) != Some(g.own))
  }

  ghost predicate Inv(s: State) {
    && (s.lock.Some? ==> s.lock.value in s.files)
    && (forall p :: p in s.procs ==> PhaseOk(s, p))
    && (forall p, q :: p in s.procs && q in s.procs ==> PairOk(s, p, q))
  }

  /** Every live holder's lock is in place, and names that holder. */
  ghost predicate Safe(s: State) {
    forall p :: p in s.procs && Holds(s.procs[p]) ==>
      s.lock == Some(s.procs[p].own) && s.procs[p].own in s.files && s.files[s.procs[p].own] == FormatPid(p)
  }

  /** Before any server starts: some lock file and some temporary files may have been left behind. */
  predicate Initial(s: State) {
    && (s.lock.Some? ==> s.lock.value in s.files)
    && forall p :: p in s.procs ==> s.procs[p].Bystander? || s.procs[p].Dead?
  }

  /** The reclaim removes a lock that a live server has put there since the reclaimer's last look. */
  predicate RemovesLiveLock(s: State, p: Pid, a: Action)
    requires Enabled(s, p, a)
  {
    && a.Unlink? && a.unlinkOk && s.lock.Some? && s.lock.value != s.procs[p].target
    && exists h :: h in s.procs && Holds(s.procs[h]) && s.lock == Some(s.procs[h].own)
  }

  lemma SafeWhenInv(s: State)
    requires Inv(s)
    ensures Safe(s)
  {
    forall p | p in s.procs && Holds(s.procs[p])
      ensures s.lock == Some(s.procs[p].own) && s.procs[p].own in s.files
              && s.files[s.procs[p].own] == FormatPid(p)
    {
      assert PhaseOk(s, p);
    }
  }

  // ----- One step -----

  /** Moving one process is fine when its new phase is fine beside every other. */
  lemma GotoKeeps(s: State, p: Pid, f: Phase)
    requires Inv(s) && p in s.procs
    requires PhaseOk(Goto(s, p, f), p)
    requires forall q :: q in s.procs ==> PairOk(Goto(s, p, f), p, q) && PairOk(Goto(s, p, f), q, p)
    ensures Inv(Goto(s, p, f))
  {
    var t := Goto(s, p, f);
    forall q | q in t.procs ensures PhaseOk(t, q) {
      assert PhaseOk(s, q);
    }
    forall q, r | q in t.procs && r in t.procs ensures PairOk(t, q, r) {
      assert PairOk(s, q, r);
      assert PairOk(t, p, r) && PairOk(t, q, p);
    }
  }

  /** Steps that change nothing but where the process stands. */
  predicate OnlyMoves(a: Action) {
    a.Start? || a.SetMode? || a.Stat? || a.Open? || a.Read? || a.Probe? || a.Recheck? || a.Fail? || a.Crash?
  }

  /** A live holder's lock never comes out stale or bogus: it is complete and names its holder. */
  lemma HoldersAreNotJudged(s: State, p: Pid, a: Action, h: Pid)
    requires Enabled(s, p, a) && (a.Read? || a.Probe?) && h in s.procs && Holds(s.procs[h])
    requires PhaseOk(s, p) && PhaseOk(s, h)
    ensures Judged(Do(s, p, a).procs[p]) != Some(s.procs[h].own)
  {
    hide FormatPid, ParsePid;
    PidRoundTrip(h);
  }

  lemma MoveFacts(s: State, p: Pid, a: Action)
    requires Enabled(s, p, a) && OnlyMoves(a)
    ensures var f, g := s.procs[p], Do(s, p, a).procs[p];
            && (Owns(g) ==> Owns(f) && g.own == f.own)
            && (BeforeLink(g) ==> BeforeLink(f))
            && (Holds(g) ==> Holds(f))
  {
    hide FormatPid, ParsePid, Live;
  }

  /** A move takes up no new file but the one behind the lock's name. */
  lemma MoveRefs(s: State, p: Pid, a: Action)
    requires Enabled(s, p, a) && OnlyMoves(a)
    ensures Refs(Do(s, p, a).procs[p]) <= Refs(s.procs[p]) + Elem(s.lock)
  {
    if a.Stat? || a.Open? || a.Read? {
      LookRefs(s, p, a);
    } else {
      hide FormatPid, ParsePid, Live;
    }
  }

  lemma LookRefs(s: State, p: Pid, a: Action)
    requires Enabled(s, p, a) && (a.Stat? || a.Open? || a.Read?)
    ensures Refs(Do(s, p, a).procs[p]) <= Refs(s.procs[p]) + Elem(s.lock)
  {
    hide FormatPid, ParsePid, Live;
  }

  /** Only reading a file or probing its owner condemns one. */
  lemma MoveJudges(s: State, p: Pid, a: Action)
    requires Enabled(s, p, a) && OnlyMoves(a) && !a.Read? && !a.Probe? && Bracketed(s.lock, s.procs[p])
    ensures var f, g := s.procs[p], Do(s, p, a).procs[p];
            Judged(g).Some? ==> Judged(f) == Judged(g)
  {
    hide FormatPid, ParsePid, Live;
  }

  lemma MovePairs(s: State, p: Pid, a: Action, q: Pid)
    requires Enabled(s, p, a) && OnlyMoves(a) && q in s.procs
    requires PhaseOk(s, p) && PhaseOk(s, q) && PairOk(s, p, q) && PairOk(s, q, p)
    ensures PairOk(Do(s, p, a), p, q)
    ensures p != q ==> PairOk(Do(s, p, a), q, p)
  {
    if (a.Read? || a.Probe?) && Holds(s.procs[q]) {
      HoldersAreNotJudged(s, p, a, q);
    }
    MoveFacts(s, p, a);
    MoveRefs(s, p, a);
    if !a.Read? && !a.Probe? {
      MoveJudges(s, p, a);
    }
    MoveIsGoto(s, p, a);
    hide FormatPid, ParsePid, Live, Do, Enabled, Refs, Judged, BeforeLink, Owns;
  }

  lemma QuietPhase(s: State, p: Pid, a: Action)
    requires Enabled(s, p, a) && (a.Start? || a.SetMode? || a.Fail? || a.Crash?)
    requires PhaseOk(s, p)
    ensures PhaseOk(Do(s, p, a), p)
  {
    hide FormatPid, ParsePid, Live;
  }

  lemma LookPhase(s: State, p: Pid, a: Action)
    requires Enabled(s, p, a) && (a.Stat? || a.Open? || a.Recheck?)
    requires s.lock.Some? ==> s.lock.value in s.files
    requires PhaseOk(s, p)
    ensures PhaseOk(Do(s, p, a), p)
  {
    hide FormatPid, ParsePid, Live;
  }

  lemma JudgePhase(s: State, p: Pid, a: Action)
    requires Enabled(s, p, a) && (a.Read? || a.Probe?)
    requires PhaseOk(s, p)
    ensures PhaseOk(Do(s, p, a), p)
  {
    hide FormatPid, ParsePid, Live;
  }

  lemma MovePhase(s: State, p: Pid, a: Action)
    requires Inv(s) && Enabled(s, p, a) && OnlyMoves(a)
    ensures PhaseOk(Do(s, p, a), p)
  {
    assert p in s.procs && PhaseOk(s, p);
    hide PhaseOk, Do, Enabled;
    if a.Start? || a.SetMode? || a.Fail? || a.Crash? {
      QuietPhase(s, p, a);
    } else if a.Read? || a.Probe? {
      JudgePhase(s, p, a);
    } else {
      LookPhase(s, p, a);
    }
  }

  lemma MoveIsGoto(s: State, p: Pid, a: Action)
    requires Enabled(s, p, a) && OnlyMoves(a)
    ensures p in s.procs && Do(s, p, a) == Goto(s, p, Do(s, p, a).procs[p])
  {
  }

  lemma MoveKeeps(s: State, p: Pid, a: Action)
    requires Inv(s) && Enabled(s, p, a) && OnlyMoves(a)
    ensures Inv(Do(s, p, a))
  {
    hide PhaseOk, PairOk, Do, Enabled;
    MoveIsGoto(s, p, a);
    var t := Do(s, p, a);
    MovePhase(s, p, a);
    forall q | q in s.procs ensures PairOk(t, p, q) && PairOk(t, q, p) {
      MovePairs(s, p, a, q);
    }
    GotoKeeps(s, p, t.procs[p]);
  }

  /** The phases are consistent with each other; files and names are left aside. */
  ghost predicate Paired(s: State) {
    forall p, q :: p in s.procs && q in s.procs ==> PairOk(s, p, q)
  }

  lemma PairsKept(s: State, t: State, p: Pid, f: Phase)
    requires Paired(s) && t.procs == s.procs[p := f]
    requires forall q :: q in t.procs ==> PairOk(t, p, q) && PairOk(t, q, p)
    ensures Paired(t)
  {
    forall q, r | q in t.procs && r in t.procs ensures PairOk(t, q, r) {
      if q != p && r != p {
        assert PairOk(s, q, r);
      } else {
        assert PairOk(t, p, q) && PairOk(t, q, p) && PairOk(t, p, r) && PairOk(t, r, p);
      }
    }
  }

  lemma SpawnKeeps(s: State, p: Pid)
    requires Inv(s) && Enabled(s, p, Spawn)
    ensures Inv(Do(s, p, Spawn))
  {
    var t := Do(s, p, Spawn);
    forall q | q in t.procs ensures PhaseOk(t, q) {
      assert q != p ==> PhaseOk(s, q);
    }
    forall q | q in t.procs ensures PairOk(t, p, q) && PairOk(t, q, p) {
    }
    PairsKept(s, t, p, Bystander);
  }

  lemma CreateKeeps(s: State, p: Pid, i: Inode)
    requires Inv(s) && Enabled(s, p, Create(i))
    ensures Inv(Do(s, p, Create(i)))
  {
    hide FormatPid, ParsePid;
    var t := Do(s, p, Create(i));
    forall q | q in t.procs ensures PhaseOk(t, q) {
      assert PhaseOk(s, q);
    }
    forall q | q in t.procs ensures PairOk(t, p, q) && PairOk(t, q, p) {
      assert PhaseOk(s, q);
    }
    PairsKept(s, t, p, Writing(i));
  }

  lemma WriteKeeps(s: State, p: Pid, n: nat)
    requires Inv(s) && Enabled(s, p, Write(n))
    ensures Inv(Do(s, p, Write(n)))
  {
    hide FormatPid, ParsePid;
    var t := Do(s, p, Write(n));
    assert PhaseOk(s, p);
    forall q | q in t.procs ensures PhaseOk(t, q) {
      assert PhaseOk(s, q) && PairOk(s, q, p);
    }
    forall q, r | q in t.procs && r in t.procs ensures PairOk(t, q, r) {
      assert PairOk(s, q, r);
    }
  }

  /** The link succeeds only where nobody holds the lock, and publishes a complete file. */
  lemma LinkKeeps(s: State, p: Pid)
    requires Inv(s) && Enabled(s, p, Link)
    ensures Inv(Do(s, p, Link))
    ensures var t := Do(s, p, Link);
            if s.lock.None? then t.lock == Some(s.procs[p].own) && Holds(t.procs[p])
                                 && s.procs[p].own in t.files && t.files[s.procs[p].own] == FormatPid(p)
            else t.lock == s.lock && !Holds(t.procs[p])
  {
    hide FormatPid, ParsePid;
    var t := Do(s, p, Link);
    assert PhaseOk(s, p);
    forall q | q in t.procs ensures PhaseOk(t, q) {
      assert PhaseOk(s, q) && PairOk(s, q, p);
    }
    forall q | q in t.procs ensures PairOk(t, p, q) && PairOk(t, q, p) {
      assert PhaseOk(s, q) && PairOk(s, q, p) && PairOk(s, p, q);
    }
    PairsKept(s, t, p, t.procs[p]);
  }

  lemma UnlinkKeeps(s: State, p: Pid, ok: bool)
    requires Inv(s) && Enabled(s, p, Unlink(ok)) && !RemovesLiveLock(s, p, Unlink(ok))
    ensures Inv(Do(s, p, Unlink(ok)))
  {
    hide FormatPid, ParsePid;
    var t := Do(s, p, Unlink(ok));
    forall q | q in t.procs ensures PhaseOk(t, q) {
      assert PhaseOk(s, q) && PairOk(s, p, q);
    }
    forall q | q in t.procs ensures PairOk(t, p, q) && PairOk(t, q, p) {
      assert PairOk(s, q, p) && PairOk(s, p, q);
    }
    PairsKept(s, t, p, t.procs[p]);
  }

  lemma CleanUpKeeps(s: State, p: Pid)
    requires Inv(s) && Enabled(s, p, CleanUp)
    ensures Inv(Do(s, p, CleanUp))
  {
    hide FormatPid, ParsePid;
    var t := Do(s, p, CleanUp);
    forall q | q in t.procs ensures PhaseOk(t, q) {
      assert PhaseOk(s, q);
    }
    forall q | q in t.procs ensures PairOk(t, p, q) && PairOk(t, q, p) {
      assert PairOk(s, q, p) && PairOk(s, p, q);
    }
    PairsKept(s, t, p, t.procs[p]);
  }

  /** The guard's drop removes the holder's own lock. */
  lemma DropKeeps(s: State, p: Pid, ok: bool)
    requires Inv(s) && Enabled(s, p, DropGuard(ok))
    ensures Inv(Do(s, p, DropGuard(ok)))
    ensures s.lock == Some(s.procs[p].own)
    ensures Do(s, p, DropGuard(ok)).lock == (if ok then None else s.lock) && !Holds(Do(s, p, DropGuard(ok)).procs[p])
  {
    hide FormatPid, ParsePid;
    var t := Do(s, p, DropGuard(ok));
    assert PhaseOk(s, p);
    forall q | q in t.procs ensures PhaseOk(t, q) {
      assert PhaseOk(s, q) && PairOk(s, p, q);
    }
    forall q | q in t.procs ensures PairOk(t, p, q) && PairOk(t, q, p) {
      assert PairOk(s, q, p) && PairOk(s, p, q);
    }
    PairsKept(s, t, p, t.procs[p]);
  }
}
