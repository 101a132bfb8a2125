/** What the crossing events of two windows do to a client's view, for windows at any depth. */
module CrossingReplay {
  import opened Ints
  import opened Wrappers
  import opened Sequences
  import opened WindowTree
  import opened Crossings

  /** The two paths to the root part at `from[i]` and `to[j]`: from there on they are the same, and
      before that they have nothing in common. */
  ghost predicate Forks(p: seq<WindowId>, q: seq<WindowId>, i: nat, j: nat) {
    && i < |p| && j < |q| && p[i..] == q[j..]
    && (forall k :: 0 <= k < i ==> p[k] !in q)
    && (forall k :: 0 <= k < j ==> q[k] !in p)
  }

  lemma Fork(t: Table, from: WindowId, to: WindowId) returns (i: nat, j: nat)
    requires WellFormed(t) && from in t && to in t && Reaches(t, from) && Reaches(t, to)
    ensures Forks(RootPath(t, from), RootPath(t, to), i, j)
  {
    var p, q := RootPath(t, from), RootPath(t, to);
    assert p[|p| - 1] == ROOT && q[|q| - 1] == ROOT;
    j := 0;
    while q[j] !in p
      invariant j < |q|
      invariant forall k :: 0 <= k < j ==> q[k] !in p
      decreases |q| - j
    {
      j := j + 1;
    }
    i :| 0 <= i < |p| && p[i] == q[j];
    RootPathSuffix(t, from, i);
    RootPathSuffix(t, to, j);
    RootPathNoDups(t, from);
    forall k, l | 0 <= k < i && 0 <= l < |q| ensures p[k] != q[l] {
      BeforeFork(p, q, i, j, k, l);
    }
  }

  lemma BeforeFork(p: seq<WindowId>, q: seq<WindowId>, i: nat, j: nat, k: nat, l: nat)
    requires i < |p| && j < |q| && p[i..] == q[j..] && NoDups(p)
    requires forall x :: 0 <= x < j ==> q[x] !in p
    requires k < |p| && l < |q| && (l < j || k < i + l - j)
    ensures p[k] != q[l]
  {
    if l >= j {
      assert q[l] == q[j..][l - j] == p[i..][l - j] == p[i + l - j];
    }
  }

  /** Distances to the fork are determined by the paths. */
  lemma ForkUnique(p: seq<WindowId>, q: seq<WindowId>, i: nat, j: nat, k: nat, l: nat)
    requires Forks(p, q, i, j) && k < |p| && l < |q| && p[k] == q[l] && NoDups(p)
    ensures k >= i && l >= j && k - i == l - j
  {
    assert k >= i && l >= j;
    assert q[j..][l - j] == p[i..][l - j];
  }

  // ----- The moves behind the events -----

  /** Leave and Enter with detail Inferior leave the pointer inside the window: nothing moves. */
  function MovesOf(events: seq<CrossingEvent>): seq<Move> {
    if events == [] then []
    else (if events[0].detail == Inferior then []
          else if events[0].kind == Leave then [Pop(events[0].window)] else [Push(events[0].window)])
         + MovesOf(events[1..])
  }

  lemma {:induction false} MovesOfConcat(a: seq<CrossingEvent>, b: seq<CrossingEvent>)
    ensures MovesOf(a + b) == MovesOf(a) + MovesOf(b)
  {
    if a == [] {
      assert a + b == b;
    } else {
      assert (a + b)[1..] == a[1..] + b;
      MovesOfConcat(a[1..], b);
    }
  }

  lemma {:induction false} PopAllConcat(a: seq<WindowId>, b: seq<WindowId>)
    ensures PopAll(a + b) == PopAll(a) + PopAll(b)
    ensures PushAll(a + b) == PushAll(a) + PushAll(b)
  {
    if a == [] {
      assert a + b == b;
    } else {
      assert (a + b)[1..] == a[1..] + b;
      PopAllConcat(a[1..], b);
    }
  }

  lemma {:induction false} LeavesMove(chain: seq<WindowId>, k: nat, detail: Detail)
    requires 1 <= k <= |chain| && detail != Inferior
    ensures MovesOf(LeavesUp(chain, k, detail)) == PopAll(chain[1..k])
  {
    if k >= 2 {
      var e := CrossingEvent(chain[k - 1], Leave, detail, chain[k - 2]);
      LeavesMove(chain, k - 1, detail);
      MovesOfConcat(LeavesUp(chain, k - 1, detail), [e]);
      assert MovesOf([e]) == [Pop(chain[k - 1])];
      assert chain[1..k] == chain[1..k - 1] + [chain[k - 1]];
      PopAllConcat(chain[1..k - 1], [chain[k - 1]]);
      assert PopAll([chain[k - 1]]) == [Pop(chain[k - 1])];
    } else {
      assert chain[1..k] == [];
    }
  }

  lemma {:induction false} EntersMove(chain: seq<WindowId>, k: nat, detail: Detail)
    requires 1 <= k <= |chain| && detail != Inferior
    ensures MovesOf(EntersDown(chain, k, detail)) == PushAll(Reverse(chain[1..k]))
  {
    if k >= 2 {
      EntersMove(chain, k - 1, detail);
      assert chain[1..k] == chain[1..k - 1] + [chain[k - 1]];
      ReverseConcat(chain[1..k - 1], [chain[k - 1]]);
      assert Reverse([chain[k - 1]]) == [chain[k - 1]];
      PopAllConcat([chain[k - 1]], Reverse(chain[1..k - 1]));
      assert PushAll([chain[k - 1]]) == [Push(chain[k - 1])];
    } else {
      assert chain[1..k] == [];
    }
  }

  lemma LeaveThenUp(chain: seq<WindowId>, k: nat)
    requires 1 <= k <= |chain|
    ensures [Pop(chain[0])] + PopAll(chain[1..k]) == PopAll(chain[..k])
  {
    assert chain[..k] == [chain[0]] + chain[1..k];
  }

  lemma DownThenEnter(chain: seq<WindowId>, k: nat)
    requires 1 <= k <= |chain|
    ensures PushAll(Reverse(chain[1..k])) + [Push(chain[0])] == PushAll(Reverse(chain[..k]))
  {
    assert chain[..k] == [chain[0]] + chain[1..k];
    ReverseConcat([chain[0]], chain[1..k]);
    assert Reverse([chain[0]]) == [chain[0]];
    PopAllConcat(Reverse(chain[1..k]), [chain[0]]);
    assert PushAll([chain[0]]) == [Push(chain[0])];
  }

  lemma {:induction false} FirstCommonAt(a: seq<WindowId>, b: seq<WindowId>, j: nat)
    requires j <= |b| && (forall k :: 0 <= k < j ==> b[k] !in a) && (j < |b| ==> b[j] in a)
    ensures FirstCommon(a, b) == if j < |b| then Some(b[j]) else None
    decreases j
  {
    if j == 0 {
    } else {
      FirstCommonAt(a, b[1..], j - 1);
    }
  }

  lemma IndexAt(chain: seq<WindowId>, k: nat)
    requires k < |chain| && NoDups(chain)
    ensures IndexOf(chain, Some(chain[k])) == k
    ensures k > 0 ==> 1 + IndexOf(chain[1..], Some(chain[k])) == k
  {
    InPrefix(chain, k, IndexOf(chain, Some(chain[k])));
    if k > 0 {
      var tail := chain[1..];
      assert tail[k - 1] == chain[k];
      InPrefix(tail, k - 1, IndexOf(tail, Some(chain[k])));
    }
  }

  lemma InPrefix(s: seq<WindowId>, k: nat, i: nat)
    requires i <= |s| && k < |s|
    ensures k < i ==> s[k] in s[..i]
    ensures s[k] in s
  {
    if k < i {
      assert s[..i][k] == s[k];
    }
  }

  /** What the search for a common ancestor finds in two chains cut to `m` and `n` windows. */
  lemma CommonOfChains(p: seq<WindowId>, q: seq<WindowId>, i: nat, j: nat, m: nat, n: nat)
    requires Forks(p, q, i, j) && NoDups(p) && NoDups(q) && m <= |p| && n <= |q|
    ensures FirstCommon(p[..m], q[..n]) == if i < m && j < n then Some(q[j]) else None
    ensures p[i] == q[j]
  {
    var fc, tc := p[..m], q[..n];
    assert p[i..][0] == q[j..][0];
    if i < m && j < n {
      assert fc[i] == q[j];
      FirstCommonAt(fc, tc, j);
    } else {
      forall l, k | 0 <= l < m && 0 <= k < n ensures fc[l] != tc[k] {
        BeforeFork(p, q, i, j, l, k);
      }
      FirstCommonAt(fc, tc, n);
    }
  }

  /** How much of each chain the events walk. */
  function Walked(i: nat, j: nat, m: nat, n: nat): (nat, nat) {
    if i < m && j < n then (i, j) else (m, n)
  }

  /** All three cases of the computation come down to the same moves: pop the first chain up to the
      common window, push the second chain from there down; or all of both, if none was found. */
  lemma CrossingMoves(p: seq<WindowId>, q: seq<WindowId>, i: nat, j: nat, m: nat, n: nat)
    requires Forks(p, q, i, j) && NoDups(p) && NoDups(q) && 1 <= m <= |p| && 1 <= n <= |q|
    ensures var w := Walked(i, j, m, n);
            MovesOf(CrossingsOf(p[0], q[0], p[..m], q[..n])) == PopAll(p[..w.0]) + PushAll(Reverse(q[..w.1]))
  {
    hide CrossingsOf, MovesOf, PopAll, PushAll, Reverse, Forks, NoDups;
    if p[0] == q[0] {
      CaseSame(p, q, i, j, m, n);
    } else if q[0] in p[..m][1..] {
      CaseUp(p, q, i, j, m, n);
    } else if p[0] in q[..n][1..] {
      CaseDown(p, q, i, j, m, n);
    } else {
      CaseAcross(p, q, i, j, m, n);
    }
  }

  lemma CaseSame(p: seq<WindowId>, q: seq<WindowId>, i: nat, j: nat, m: nat, n: nat)
    requires Forks(p, q, i, j) && NoDups(p) && NoDups(q) && 1 <= m <= |p| && 1 <= n <= |q| && p[0] == q[0]
    ensures var w := Walked(i, j, m, n);
            MovesOf(CrossingsOf(p[0], q[0], p[..m], q[..n])) == PopAll(p[..w.0]) + PushAll(Reverse(q[..w.1]))
  {
    ForkUnique(p, q, i, j, 0, 0);
    NoMoves();
  }

  lemma CaseUp(p: seq<WindowId>, q: seq<WindowId>, i: nat, j: nat, m: nat, n: nat)
    requires Forks(p, q, i, j) && NoDups(p) && NoDups(q) && 1 <= m <= |p| && 1 <= n <= |q|
    requires p[0] != q[0] && q[0] in p[..m][1..]
    ensures var w := Walked(i, j, m, n);
            MovesOf(CrossingsOf(p[0], q[0], p[..m], q[..n])) == PopAll(p[..w.0]) + PushAll(Reverse(q[..w.1]))
  {
    hide UpEvents, DownEvents, AcrossEvents, MovesOf, PopAll, PushAll, Reverse, FirstCommon, IndexOf;
    var fc := p[..m];
    var k :| 1 <= k < m && fc[k] == q[0];
    ForkUnique(p, q, i, j, k, 0);
    UpMoves(p[0], q[0], fc, i);
    assert fc[..i] == p[..i];
  }

  lemma CaseDown(p: seq<WindowId>, q: seq<WindowId>, i: nat, j: nat, m: nat, n: nat)
    requires Forks(p, q, i, j) && NoDups(p) && NoDups(q) && 1 <= m <= |p| && 1 <= n <= |q|
    requires p[0] != q[0] && q[0] !in p[..m][1..] && p[0] in q[..n][1..]
    ensures var w := Walked(i, j, m, n);
            MovesOf(CrossingsOf(p[0], q[0], p[..m], q[..n])) == PopAll(p[..w.0]) + PushAll(Reverse(q[..w.1]))
  {
    hide UpEvents, DownEvents, AcrossEvents, MovesOf, PopAll, PushAll, Reverse, FirstCommon, IndexOf;
    var tc := q[..n];
    var k :| 1 <= k < n && tc[k] == p[0];
    ForkUnique(p, q, i, j, 0, k);
    DownMoves(p[0], q[0], tc, j);
    assert tc[..j] == q[..j];
  }

  lemma CaseAcross(p: seq<WindowId>, q: seq<WindowId>, i: nat, j: nat, m: nat, n: nat)
    requires Forks(p, q, i, j) && NoDups(p) && NoDups(q) && 1 <= m <= |p| && 1 <= n <= |q|
    requires p[0] != q[0] && q[0] !in p[..m][1..] && p[0] !in q[..n][1..]
    ensures var w := Walked(i, j, m, n);
            MovesOf(CrossingsOf(p[0], q[0], p[..m], q[..n])) == PopAll(p[..w.0]) + PushAll(Reverse(q[..w.1]))
  {
    hide UpEvents, DownEvents, AcrossEvents, MovesOf, PopAll, PushAll, Reverse, FirstCommon, IndexOf;
    var fc, tc := p[..m], q[..n];
    var w := Walked(i, j, m, n);
    ForkInside(p, q, i, j, m, n);
    AcrossMoves(p[0], q[0], fc, tc, FirstCommon(fc, tc), w.0, w.1);
    assert fc[..w.0] == p[..w.0] && tc[..w.1] == q[..w.1];
  }

  lemma NothingMoved()
    ensures PopAll([]) == [] && PushAll(Reverse([])) == []
  {
  }

  lemma NoMoves()
    ensures MovesOf([]) == PopAll([]) + PushAll(Reverse([]))
  {
  }

  /** If neither window is an ancestor of the other, the fork is above both. */
  lemma ForkInside(p: seq<WindowId>, q: seq<WindowId>, i: nat, j: nat, m: nat, n: nat)
    requires Forks(p, q, i, j) && NoDups(p) && NoDups(q) && 1 <= m <= |p| && 1 <= n <= |q|
    requires p[0] != q[0] && q[0] !in p[..m][1..] && p[0] !in q[..n][1..]
    ensures var w := Walked(i, j, m, n); w.0 >= 1 && w.1 >= 1
    ensures var w := Walked(i, j, m, n); var c := FirstCommon(p[..m], q[..n]);
            w.0 == 1 + IndexOf(p[..m][1..], c) && w.1 == 1 + IndexOf(q[..n][1..], c)
  {
    CommonOfChains(p, q, i, j, m, n);
    hide FirstCommon;
    var fc, tc := p[..m], q[..n];
    if i < m && j < n {
      assert i > 0 ==> fc[1..][i - 1] == fc[i];
      assert j > 0 ==> tc[1..][j - 1] == tc[j];
      IndexAt(fc, i);
      IndexAt(tc, j);
    }
  }

  lemma MovesOfOne(e: CrossingEvent)
    ensures MovesOf([e]) == if e.detail == Inferior then [] else if e.kind == Leave then [Pop(e.window)] else [Push(e.window)]
  {
  }

  lemma UpMoves(from: WindowId, to: WindowId, fc: seq<WindowId>, k: nat)
    requires 1 <= k < |fc| && fc[0] == from && fc[k] == to && NoDups(fc)
    ensures MovesOf(UpEvents(from, to, fc)) == PopAll(fc[..k]) + PushAll(Reverse([]))
  {
    hide MovesOf, LeavesUp, PopAll, PushAll;
    var first, last := [CrossingEvent(from, Leave, Ancestor, NONE)], [CrossingEvent(to, Enter, Inferior, NONE)];
    MovesOfOne(first[0]);
    MovesOfOne(last[0]);
    NothingMoved();
    IndexAt(fc, k);
    LeavesMove(fc, k, Virtual);
    ThreeParts(first, LeavesUp(fc, k, Virtual), last);
    LeaveThenUp(fc, k);
  }

  lemma DownMoves(from: WindowId, to: WindowId, tc: seq<WindowId>, k: nat)
    requires 1 <= k < |tc| && tc[0] == to && tc[k] == from && NoDups(tc)
    ensures MovesOf(DownEvents(from, to, tc)) == PopAll([]) + PushAll(Reverse(tc[..k]))
  {
    hide MovesOf, EntersDown, PopAll, PushAll, Reverse;
    var first, last := [CrossingEvent(from, Leave, Inferior, NONE)], [CrossingEvent(to, Enter, Ancestor, NONE)];
    MovesOfOne(first[0]);
    MovesOfOne(last[0]);
    NothingMoved();
    IndexAt(tc, k);
    EntersMove(tc, k, Virtual);
    ThreeParts(first, EntersDown(tc, k, Virtual), last);
    DownThenEnter(tc, k);
  }

  lemma AcrossMoves(from: WindowId, to: WindowId, fc: seq<WindowId>, tc: seq<WindowId>, common: Option<WindowId>,
                    k: nat, l: nat)
    requires fc != [] && tc != [] && fc[0] == from && tc[0] == to
    requires k == 1 + IndexOf(fc[1..], common) && l == 1 + IndexOf(tc[1..], common)
    ensures MovesOf(AcrossEvents(from, to, fc, tc, common)) == PopAll(fc[..k]) + PushAll(Reverse(tc[..l]))
  {
    hide MovesOf, LeavesUp, EntersDown, PopAll, PushAll, Reverse;
    var first, last := [CrossingEvent(from, Leave, Nonlinear, NONE)], [CrossingEvent(to, Enter, Nonlinear, NONE)];
    MovesOfOne(first[0]);
    MovesOfOne(last[0]);
    var up, down := LeavesUp(fc, k, NonlinearVirtual), EntersDown(tc, l, NonlinearVirtual);
    LeavesMove(fc, k, NonlinearVirtual);
    EntersMove(tc, l, NonlinearVirtual);
    MovesOfConcat(first + up + down, last);
    ThreeParts(first, up, down);
    LeaveThenUp(fc, k);
    DownThenEnter(tc, l);
  }

  lemma ThreeParts(a: seq<CrossingEvent>, b: seq<CrossingEvent>, c: seq<CrossingEvent>)
    ensures MovesOf(a + b + c) == MovesOf(a) + MovesOf(b) + MovesOf(c)
  {
    MovesOfConcat(a + b, c);
    MovesOfConcat(a, b);
  }

  // ----- The replay -----

  /** Consecutive windows of a path in a tree. */
  ghost predicate IsRootPath(t: Table, p: seq<WindowId>) {
    && p != [] && p[|p| - 1] == ROOT && NoDups(p)
    && (forall k :: 0 <= k < |p| ==> p[k] in t)
    && (forall k :: 0 <= k < |p| - 1 ==> t[p[k]].parent == p[k + 1])
  }

  lemma RootPathIs(t: Table, w: WindowId)
    requires WellFormed(t) && w in t && Reaches(t, w)
    ensures IsRootPath(t, RootPath(t, w))
  {
    RootPathNoDups(t, w);
    forall k | 0 <= k < |RootPath(t, w)| ensures RootPath(t, w)[k] in t {
      RootPathInTable(t, w, k);
    }
    forall k | 0 <= k < |RootPath(t, w)| - 1 ensures t[RootPath(t, w)[k]].parent == RootPath(t, w)[k + 1] {
      RootPathInTable(t, w, k);
    }
  }

  /** Popping and pushing turns one path into the other exactly when both parts stop at the fork, or
      when both chains were cut right below it. */
  lemma WalkReplaysIff(t: Table, p: seq<WindowId>, q: seq<WindowId>, i: nat, j: nat, m: nat, n: nat, moves: seq<Move>)
    requires IsRootPath(t, p) && IsRootPath(t, q) && Forks(p, q, i, j)
    requires 1 <= m <= |p| && 1 <= n <= |q| && (m < |p| ==> n <= m) && (n < |q| ==> m <= n)
    requires var w := Walked(i, j, m, n); moves == PopAll(p[..w.0]) + PushAll(Reverse(q[..w.1]))
    ensures Replay(t, p, moves) == Some(q) <==> (i < m && j < n) || (i == m && j == n)
    ensures Replay(t, p, moves).Some? <==> Replay(t, p, moves) == Some(q)
  {
    var w := Walked(i, j, m, n);
    ReplayConcat(t, p, PopAll(p[..w.0]), PushAll(Reverse(q[..w.1])));
    ReplayPops(t, p, w.0);
    if w.0 == i && w.1 == j {
      ReplayPushes(t, q, j);
    } else {
      CutWalkFails(t, p, q, i, j, m, n);
    }
  }

  /** A walk that does not stop at the fork ends with an Enter that does not fit the view. */
  lemma CutWalkFails(t: Table, p: seq<WindowId>, q: seq<WindowId>, i: nat, j: nat, m: nat, n: nat)
    requires IsRootPath(t, p) && IsRootPath(t, q) && Forks(p, q, i, j)
    requires 1 <= m <= |p| && 1 <= n <= |q| && (m < |p| ==> n <= m) && (n < |q| ==> m <= n)
    requires (i >= m || j >= n) && !(i == m && j == n)
    ensures Replay(t, p[m..], PushAll(Reverse(q[..n]))) == None
  {
    var view := p[m..];
    assert q[..n][n - 1] == q[n - 1];
    assert !CanPush(t, view, q[n - 1]) by {
      if j < n {
        assert q[n - 1] == q[j..][n - 1 - j] == p[i..][n - 1 - j] == p[i + n - 1 - j];
        assert view[i + n - 1 - j - m] == q[n - 1];
      } else {
        assert t[q[n - 1]].parent == q[n] && q[n - 1] != ROOT;
        if view != [] && view[0] == q[n] {
          ForkUnique(p, q, i, j, m, n);
        }
      }
    }
    FirstPushFails(t, view, q[..n]);
  }

  /** Steps from each window up to the fork of their paths. */
  ghost function ForkDistances(t: Table, from: WindowId, to: WindowId): (d: (nat, nat))
    requires WellFormed(t) && from in t && to in t && Reaches(t, from) && Reaches(t, to)
    ensures Forks(RootPath(t, from), RootPath(t, to), d.0, d.1)
  {
    assert exists i: nat, j: nat :: Forks(RootPath(t, from), RootPath(t, to), i, j) by {
      var i, j := Fork(t, from, to);
    }
    var i: nat, j: nat :| Forks(RootPath(t, from), RootPath(t, to), i, j);
    (i, j)
  }

  /** Both windows reach their lowest common ancestor within 256 hops, or both need exactly 257. */
  ghost predicate NearFork(t: Table, from: WindowId, to: WindowId)
    requires WellFormed(t) && from in t && to in t && Reaches(t, from) && Reaches(t, to)
  {
    var (i, j) := ForkDistances(t, from, to);
    (i <= MAX_HOPS && j <= MAX_HOPS) || (i == MAX_HOPS + 1 && j == MAX_HOPS + 1)
  }

  /** How much of the two paths the events walk. */
  ghost function WalkedPaths(t: Table, from: WindowId, to: WindowId): (w: (nat, nat))
    requires WellFormed(t) && from in t && to in t && Reaches(t, from) && Reaches(t, to)
    ensures w.0 <= |RootPath(t, from)| && w.1 <= |RootPath(t, to)|
  {
    var d := ForkDistances(t, from, to);
    Walked(d.0, d.1, Min(MAX_HOPS + 1, |RootPath(t, from)|), Min(MAX_HOPS + 1, |RootPath(t, to)|))
  }

  lemma ChainMoves(t: Table, from: WindowId, to: WindowId)
    requires WellFormed(t) && from in t && to in t && Reaches(t, from) && Reaches(t, to)
    ensures var w := WalkedPaths(t, from, to);
            MovesOf(CrossingChain(t, from, to))
            == PopAll(RootPath(t, from)[..w.0]) + PushAll(Reverse(RootPath(t, to)[..w.1]))
  {
    hide MovesOf, PopAll, PushAll, Reverse, CrossingsOf;
    var p, q := RootPath(t, from), RootPath(t, to);
    var (i, j) := ForkDistances(t, from, to);
    RootPathNoDups(t, from);
    RootPathNoDups(t, to);
    ChainIsPath(t, from, MAX_HOPS);
    ChainIsPath(t, to, MAX_HOPS);
    CrossingMoves(p, q, i, j, Min(MAX_HOPS + 1, |p|), Min(MAX_HOPS + 1, |q|));
  }

  /** Replaying the crossing events turns the path of the window left into the path of the window
      entered, exactly when their common ancestor is near enough; otherwise some event does not fit. */
  lemma CrossingsReplayIff(t: Table, from: WindowId, to: WindowId)
    requires WellFormed(t) && from in t && to in t && Reaches(t, from) && Reaches(t, to)
    ensures Replay(t, RootPath(t, from), MovesOf(CrossingChain(t, from, to))) == Some(RootPath(t, to))
       <==> NearFork(t, from, to)
    ensures Replay(t, RootPath(t, from), MovesOf(CrossingChain(t, from, to))).Some? <==> NearFork(t, from, to)
  {
    hide MovesOf, PopAll, PushAll, Reverse, Replay, CrossingChain, IsRootPath;
    var p, q := RootPath(t, from), RootPath(t, to);
    var (i, j) := ForkDistances(t, from, to);
    RootPathIs(t, from);
    RootPathIs(t, to);
    ChainMoves(t, from, to);
    WalkReplaysIff(t, p, q, i, j, Min(MAX_HOPS + 1, |p|), Min(MAX_HOPS + 1, |q|), MovesOf(CrossingChain(t, from, to)));
  }

  /** In particular for all windows within 256 hops of the root. */
  lemma ShallowWindowsReplay(t: Table, from: WindowId, to: WindowId)
    requires WellFormed(t) && from in t && to in t && Reaches(t, from) && Reaches(t, to)
    requires Depth(t, from) <= MAX_HOPS && Depth(t, to) <= MAX_HOPS
    ensures Replay(t, RootPath(t, from), MovesOf(CrossingChain(t, from, to))) == Some(RootPath(t, to))
  {
    CrossingsReplayIff(t, from, to);
  }

  /** Leaving for the root replays from exactly the windows within 256 hops of it. */
  lemma NearRootIff(t: Table, w: WindowId)
    requires WellFormed(t) && w in t && Reaches(t, w) && Reaches(t, ROOT)
    ensures NearFork(t, w, ROOT) <==> Depth(t, w) <= MAX_HOPS
  {
    RootPathRoot(t);
    RootPathNoDups(t, w);
    var d := ForkDistances(t, w, ROOT);
    ForkUnique(RootPath(t, w), RootPath(t, ROOT), d.0, d.1, Depth(t, w), 0);
  }

  lemma LeaveForRootIff(t: Table, w: WindowId)
    requires WellFormed(t) && w in t && Reaches(t, w) && Reaches(t, ROOT)
    ensures Replay(t, RootPath(t, w), MovesOf(CrossingChain(t, w, ROOT))).Some? <==> Depth(t, w) <= MAX_HOPS
  {
    hide CrossingChain, MovesOf, Replay, NearFork;
    NearRootIff(t, w);
    CrossingsReplayIff(t, w, ROOT);
  }

  predicate InTower(n: nat, w: WindowId) {
    w == ROOT || 0x200 < w <= 0x200 + n
  }

  /** A tower of `n` windows, each the only child of the one before. */
  ghost function Tower(n: nat): Table
    requires n < 0x1_0000
  {
    map w: WindowId | InTower(n, w) ::
      Window(if w <= 0x201 then ROOT else w - 1,
             if w == ROOT then (if n == 0 then [] else [0x201]) else if w == 0x200 + n then [] else [w + 1],
             0, 0, 1, 1, 0, Viewable)
  }

  lemma {:induction false} TowerHops(n: nat, k: nat)
    requires 0 < k <= n < 0x1_0000
    ensures Hops(Tower(n), 0x200 + k, k)
    decreases k
  {
    if k == 1 {
      assert Hops(Tower(n), ROOT, 0);
    } else {
      TowerHops(n, k - 1);
    }
  }

  lemma TowerWindowOk(n: nat, w: WindowId)
    requires 0 < n < 0x1_0000 && w in Tower(n)
    ensures WindowOk(Tower(n), w)
  {
  }

  lemma TowerReaches(n: nat, w: WindowId)
    requires n < 0x1_0000 && InTower(n, w)
    ensures Reaches(Tower(n), w) && Depth(Tower(n), w) == if w == ROOT then 0 else w - 0x200
  {
    var t := Tower(n);
    hide Tower;
    if w == ROOT {
      RootPathRoot(t);
    } else {
      TowerHops(n, w - 0x200);
      HopsUnique(t, w, Depth(t, w), w - 0x200);
    }
  }

  lemma TowerIsTree(n: nat)
    requires 0 < n < 0x1_0000
    ensures WellFormed(Tower(n)) && 0x200 + n in Tower(n)
    ensures Reaches(Tower(n), 0x200 + n) && Depth(Tower(n), 0x200 + n) == n
  {
    var t := Tower(n);
    assert ROOT in t && 0x200 + n in t && forall w :: w in t ==> InTower(n, w);
    hide Tower, WindowOk, Hops, Reaches, InTower;
    forall w | w in t ensures Reaches(t, w) && WindowOk(t, w) {
      TowerReaches(n, w);
      TowerWindowOk(n, w);
    }
    TowerReaches(n, 0x200 + n);
  }

  /** Leaving a window deeper than that for the root does not replay. */
  lemma DeepLeaveFails(n: nat)
    requires MAX_HOPS < n < 0x1_0000
    ensures WellFormed(Tower(n)) && 0x200 + n in Tower(n) && Reaches(Tower(n), 0x200 + n) && Reaches(Tower(n), ROOT)
    ensures Replay(Tower(n), RootPath(Tower(n), 0x200 + n), MovesOf(CrossingChain(Tower(n), 0x200 + n, ROOT))).None?
  {
    hide *;
    TowerIsTree(n);
    RootPathRoot(Tower(n));
    LeaveForRootIff(Tower(n), 0x200 + n);
  }
}
