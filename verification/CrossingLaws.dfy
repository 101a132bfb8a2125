/** Laws of the crossing events: going back is going there reversed, the child fields, and the views in
    between. */
module CrossingLaws {
  import opened Ints
  import opened Wrappers
  import opened Sequences
  import opened WindowTree
  import opened Crossings
  import opened CrossingReplay

  // ----- There and back -----

  function Swap(e: CrossingEvent): CrossingEvent {
    e.(kind := if e.kind == Enter then Leave else Enter)
  }

  /** The events in reverse order with Enter and Leave exchanged. */
  function Flip(events: seq<CrossingEvent>): (r: seq<CrossingEvent>)
    ensures |r| == |events|
  {
    if events == [] then [] else Flip(events[1..]) + [Swap(events[0])]
  }

  lemma {:induction false} FlipConcat(a: seq<CrossingEvent>, b: seq<CrossingEvent>)
    ensures Flip(a + b) == Flip(b) + Flip(a)
  {
    if a == [] {
      assert a + b == b;
    } else {
      assert (a + b)[1..] == a[1..] + b;
      FlipConcat(a[1..], b);
    }
  }

  lemma FlipOne(e: CrossingEvent)
    ensures Flip([e]) == [Swap(e)]
  {
  }

  lemma {:induction false} FlipLeaves(chain: seq<WindowId>, k: nat, detail: Detail)
    requires k <= |chain|
    ensures Flip(LeavesUp(chain, k, detail)) == EntersDown(chain, k, detail)
  {
    if k < 2 {
    } else {
      var e := CrossingEvent(chain[k - 1], Leave, detail, chain[k - 2]);
      FlipLeaves(chain, k - 1, detail);
      FlipConcat(LeavesUp(chain, k - 1, detail), [e]);
      FlipOne(e);
    }
  }

  lemma {:induction false} FlipEnters(chain: seq<WindowId>, k: nat, detail: Detail)
    requires k <= |chain|
    ensures Flip(EntersDown(chain, k, detail)) == LeavesUp(chain, k, detail)
  {
    if k < 2 {
    } else {
      var e := CrossingEvent(chain[k - 1], Enter, detail, chain[k - 2]);
      FlipEnters(chain, k - 1, detail);
      FlipConcat([e], EntersDown(chain, k - 1, detail));
      FlipOne(e);
    }
  }

  lemma FlipNothing()
    ensures Flip([]) == []
  {
  }

  lemma FlipThree(a: CrossingEvent, b: seq<CrossingEvent>, c: CrossingEvent)
    ensures Flip([a] + b + [c]) == [Swap(c)] + Flip(b) + [Swap(a)]
  {
    FlipConcat([a] + b, [c]);
    FlipConcat([a], b);
    FlipOne(a);
    FlipOne(c);
  }

  /** On chains that see each other one way at most, and agree on what they have in common. */
  lemma FlipCrossings(from: WindowId, to: WindowId, fc: seq<WindowId>, tc: seq<WindowId>)
    requires fc != [] && tc != []
    requires !(to in fc[1..] && from in tc[1..])
    requires FirstCommon(fc, tc) == FirstCommon(tc, fc)
    ensures CrossingsOf(to, from, tc, fc) == Flip(CrossingsOf(from, to, fc, tc))
  {
    FlipNothing();
    FlipUp(from, to, fc);
    FlipDown(from, to, tc);
    FlipAcross(from, to, fc, tc, FirstCommon(fc, tc));
    hide Flip, UpEvents, DownEvents, AcrossEvents, FirstCommon, IndexOf;
  }

  lemma FlipUp(from: WindowId, to: WindowId, fc: seq<WindowId>)
    requires fc != []
    ensures Flip(UpEvents(from, to, fc)) == DownEvents(to, from, fc)
  {
    hide Flip, LeavesUp, EntersDown;
    var k := 1 + IndexOf(fc[1..], Some(to));
    FlipLeaves(fc, k, Virtual);
    FlipThree(CrossingEvent(from, Leave, Ancestor, NONE), LeavesUp(fc, k, Virtual), CrossingEvent(to, Enter, Inferior, NONE));
  }

  lemma FlipDown(from: WindowId, to: WindowId, tc: seq<WindowId>)
    requires tc != []
    ensures Flip(DownEvents(from, to, tc)) == UpEvents(to, from, tc)
  {
    hide Flip, LeavesUp, EntersDown;
    var k := 1 + IndexOf(tc[1..], Some(from));
    FlipEnters(tc, k, Virtual);
    FlipThree(CrossingEvent(from, Leave, Inferior, NONE), EntersDown(tc, k, Virtual), CrossingEvent(to, Enter, Ancestor, NONE));
  }

  lemma FlipAcross(from: WindowId, to: WindowId, fc: seq<WindowId>, tc: seq<WindowId>, common: Option<WindowId>)
    requires fc != [] && tc != []
    ensures Flip(AcrossEvents(from, to, fc, tc, common)) == AcrossEvents(to, from, tc, fc, common)
  {
    hide Flip, LeavesUp, EntersDown;
    var a, c := CrossingEvent(from, Leave, Nonlinear, NONE), CrossingEvent(to, Enter, Nonlinear, NONE);
    var k, l := 1 + IndexOf(fc[1..], common), 1 + IndexOf(tc[1..], common);
    var up, down := LeavesUp(fc, k, NonlinearVirtual), EntersDown(tc, l, NonlinearVirtual);
    FlipLeaves(fc, k, NonlinearVirtual);
    FlipEnters(tc, l, NonlinearVirtual);
    FlipConcat(up, down);
    FlipThree(a, up + down, c);
    SeqAssoc([a], up, down);
    SeqAssoc([Swap(c)], Flip(down), Flip(up));
  }

  /** The events back are the events there, reversed with Enter and Leave exchanged: for windows at any
      depth, because the search for the common ancestor is symmetric. */
  lemma CrossingsSymmetric(t: Table, from: WindowId, to: WindowId)
    requires WellFormed(t) && from in t && to in t
    ensures CrossingChain(t, to, from) == Flip(CrossingChain(t, from, to))
  {
    assert Reaches(t, from) && Reaches(t, to);
    var p, q := RootPath(t, from), RootPath(t, to);
    var m, n := Min(MAX_HOPS + 1, |p|), Min(MAX_HOPS + 1, |q|);
    ChainIsPath(t, from, MAX_HOPS);
    ChainIsPath(t, to, MAX_HOPS);
    RootPathNoDups(t, from);
    RootPathNoDups(t, to);
    var i, j := Fork(t, from, to);
    ChainsSeeOneWay(p, q, i, j, m, n);
    FlipCrossings(from, to, p[..m], q[..n]);
  }

  lemma ChainsSeeOneWay(p: seq<WindowId>, q: seq<WindowId>, i: nat, j: nat, m: nat, n: nat)
    requires Forks(p, q, i, j) && NoDups(p) && NoDups(q) && 1 <= m <= |p| && 1 <= n <= |q|
    ensures !(q[0] in p[..m][1..] && p[0] in q[..n][1..])
    ensures FirstCommon(p[..m], q[..n]) == FirstCommon(q[..n], p[..m])
  {
    CommonOfChains(p, q, i, j, m, n);
    CommonOfChains(q, p, j, i, n, m);
    forall k, l | 1 <= k < m && 1 <= l < n ensures !(p[k] == q[0] && q[l] == p[0]) {
      BeforeForkBoth(p, q, i, j, k, l);
    }
  }

  lemma BeforeForkBoth(p: seq<WindowId>, q: seq<WindowId>, i: nat, j: nat, k: nat, l: nat)
    requires Forks(p, q, i, j) && NoDups(p) && NoDups(q) && 1 <= k < |p| && 1 <= l < |q|
    ensures p[k] == q[0] ==> j == 0 && i == k
    ensures q[l] == p[0] ==> i == 0 && j == l
  {
    if p[k] == q[0] { ForkUnique(p, q, i, j, k, 0); }
    if q[l] == p[0] { ForkUnique(p, q, i, j, 0, l); }
  }

  // ----- The child field -----

  ghost predicate ChildOk(t: Table, from: WindowId, to: WindowId, e: CrossingEvent)
    requires Reaches(t, from) && Reaches(t, to)
  {
    if e.detail == Virtual || e.detail == NonlinearVirtual then
      && e.child in t && t[e.child].parent == e.window
      && (if e.kind == Leave then e.child in RootPath(t, from) else e.child in RootPath(t, to))
    else e.child == NONE
  }

  lemma {:induction false} LeavesChild(chain: seq<WindowId>, k: nat, detail: Detail, e: CrossingEvent)
    requires k <= |chain| && e in LeavesUp(chain, k, detail)
    ensures e.kind == Leave && e.detail == detail
    ensures exists i :: 0 < i < k && e.window == chain[i] && e.child == chain[i - 1]
  {
    if k >= 2 && e in LeavesUp(chain, k - 1, detail) {
      LeavesChild(chain, k - 1, detail, e);
    } else {
      assert e == CrossingEvent(chain[k - 1], Leave, detail, chain[k - 2]);
    }
  }

  lemma {:induction false} EntersChild(chain: seq<WindowId>, k: nat, detail: Detail, e: CrossingEvent)
    requires k <= |chain| && e in EntersDown(chain, k, detail)
    ensures e.kind == Enter && e.detail == detail
    ensures exists i :: 0 < i < k && e.window == chain[i] && e.child == chain[i - 1]
  {
    if k >= 2 && e in EntersDown(chain, k - 1, detail) {
      EntersChild(chain, k - 1, detail, e);
    } else {
      assert e == CrossingEvent(chain[k - 1], Enter, detail, chain[k - 2]);
    }
  }

  /** The `child` of a virtual event is the next window down the path to the window left (Leave) or
      entered (Enter); the events of the two end windows name no child. */
  lemma VirtualChildren(t: Table, from: WindowId, to: WindowId, e: CrossingEvent)
    requires WellFormed(t) && from in t && to in t && Reaches(t, from) && Reaches(t, to)
    requires e in CrossingChain(t, from, to)
    ensures ChildOk(t, from, to, e)
  {
    var fc, tc := Chain(t, from), Chain(t, to);
    var up, down := EventPlace(from, to, fc, tc, e);
    hide LeavesUp, EntersDown, CrossingsOf;
    if up.Some? {
      LeavesChild(fc, up.value.0, up.value.1, e);
      var i :| 0 < i < up.value.0 && e.window == fc[i] && e.child == fc[i - 1];
      ChainNeighbours(t, from, i);
    } else if down.Some? {
      EntersChild(tc, down.value.0, down.value.1, e);
      var i :| 0 < i < down.value.0 && e.window == tc[i] && e.child == tc[i - 1];
      ChainNeighbours(t, to, i);
    }
  }

  lemma ChainNeighbours(t: Table, w: WindowId, i: nat)
    requires WellFormed(t) && w in t && Reaches(t, w) && 0 < i < |Chain(t, w)|
    ensures Chain(t, w)[i - 1] in t && t[Chain(t, w)[i - 1]].parent == Chain(t, w)[i]
    ensures Chain(t, w)[i - 1] in RootPath(t, w)
  {
    ChainIsPath(t, w, MAX_HOPS);
    RootPathInTable(t, w, i - 1);
  }

  /** Which part of the list an event comes from. */
  lemma EventPlace(from: WindowId, to: WindowId, fc: seq<WindowId>, tc: seq<WindowId>, e: CrossingEvent)
    returns (up: Option<(nat, Detail)>, down: Option<(nat, Detail)>)
    requires fc != [] && tc != [] && e in CrossingsOf(from, to, fc, tc)
    ensures up.Some? ==> up.value.0 <= |fc| && (up.value.1 == Virtual || up.value.1 == NonlinearVirtual)
                         && e in LeavesUp(fc, up.value.0, up.value.1)
    ensures down.Some? ==> down.value.0 <= |tc| && (down.value.1 == Virtual || down.value.1 == NonlinearVirtual)
                           && e in EntersDown(tc, down.value.0, down.value.1)
    ensures up.None? && down.None? ==> e.detail != Virtual && e.detail != NonlinearVirtual && e.child == NONE
  {
    hide LeavesUp, EntersDown, FirstCommon, IndexOf;
    up, down := None, None;
    if to in fc[1..] {
      var k := 1 + IndexOf(fc[1..], Some(to));
      if e in LeavesUp(fc, k, Virtual) { up := Some((k, Virtual)); }
    } else if from in tc[1..] {
      var k := 1 + IndexOf(tc[1..], Some(from));
      if e in EntersDown(tc, k, Virtual) { down := Some((k, Virtual)); }
    } else {
      up, down := EventPlaceAcross(from, to, fc, tc, FirstCommon(fc, tc), e);
    }
  }

  lemma EventPlaceAcross(from: WindowId, to: WindowId, fc: seq<WindowId>, tc: seq<WindowId>, common: Option<WindowId>,
                         e: CrossingEvent)
    returns (up: Option<(nat, Detail)>, down: Option<(nat, Detail)>)
    requires fc != [] && tc != [] && e in AcrossEvents(from, to, fc, tc, common)
    ensures up.Some? ==> up.value.0 <= |fc| && up.value.1 == NonlinearVirtual
                         && e in LeavesUp(fc, up.value.0, NonlinearVirtual)
    ensures down.Some? ==> down.value.0 <= |tc| && down.value.1 == NonlinearVirtual
                           && e in EntersDown(tc, down.value.0, NonlinearVirtual)
    ensures up.None? && down.None? ==> e.detail == Nonlinear && e.child == NONE
  {
    hide LeavesUp, EntersDown, IndexOf;
    var k, l := 1 + IndexOf(fc[1..], common), 1 + IndexOf(tc[1..], common);
    up := if e in LeavesUp(fc, k, NonlinearVirtual) then Some((k, NonlinearVirtual)) else None;
    down := if e in EntersDown(tc, l, NonlinearVirtual) then Some((l, NonlinearVirtual)) else None;
  }

  // ----- The views in between -----

  ghost predicate IsView(t: Table, view: seq<WindowId>) {
    view == [] || (Reaches(t, view[0]) && view[0] in t && view == RootPath(t, view[0]))
  }

  /** Every view on the way, after any number of moves that fit, is the path of some window to the root. */
  lemma {:induction false} ReplayStaysOnPaths(t: Table, view: seq<WindowId>, moves: seq<Move>)
    requires WellFormed(t) && IsView(t, view)
    requires Replay(t, view, moves).Some?
    ensures IsView(t, Replay(t, view, moves).value)
    decreases |moves|
  {
    if moves == [] {
    } else {
      match moves[0]
      case Pop(w) => ViewPop(t, view); ReplayStaysOnPaths(t, view[1..], moves[1..]);
      case Push(w) => ViewPush(t, view, w); ReplayStaysOnPaths(t, [w] + view, moves[1..]);
    }
  }

  lemma ViewPop(t: Table, view: seq<WindowId>)
    requires WellFormed(t) && IsView(t, view) && view != []
    ensures IsView(t, view[1..])
  {
    if |view| > 1 {
      RootPathSuffix(t, view[0], 1);
      RootPathInTable(t, view[0], 1);
    }
  }

  lemma ViewPush(t: Table, view: seq<WindowId>, w: WindowId)
    requires WellFormed(t) && IsView(t, view) && CanPush(t, view, w)
    ensures IsView(t, [w] + view)
  {
    if view == [] {
      RootPathRoot(t);
    } else {
      OnPathSelf(t, view[0]);
      assert w != ROOT;
      RootPathStep(t, w);
    }
  }

  /** Cutting a fitting run of moves short still fits. */
  lemma ReplayPrefix(t: Table, view: seq<WindowId>, moves: seq<Move>, i: nat)
    requires i <= |moves| && Replay(t, view, moves).Some?
    ensures Replay(t, view, moves[..i]).Some?
  {
    ReplayConcat(t, view, moves[..i], moves[i..]);
    assert moves == moves[..i] + moves[i..];
  }

  /** The crossing events of two windows carry a client from path to path: after any number of them it
      has the path of some window, and they all fit exactly when the common ancestor is near enough. */
  lemma CrossingViewsArePaths(t: Table, from: WindowId, to: WindowId, k: nat)
    requires WellFormed(t) && from in t && to in t && Reaches(t, from) && Reaches(t, to)
    requires k <= |MovesOf(CrossingChain(t, from, to))|
    ensures var r := Replay(t, RootPath(t, from), MovesOf(CrossingChain(t, from, to))[..k]);
            && (r.Some? ==> IsView(t, r.value))
            && (NearFork(t, from, to) ==> r.Some?)
            && (k == |MovesOf(CrossingChain(t, from, to))| ==> (r.Some? <==> NearFork(t, from, to)))
  {
    hide CrossingChain, MovesOf, NearFork, Replay;
    var moves := MovesOf(CrossingChain(t, from, to));
    var path := RootPath(t, from);
    CrossingsReplayIff(t, from, to);
    if NearFork(t, from, to) {
      ReplayPrefix(t, path, moves, k);
    }
    assert moves[..|moves|] == moves;
    if Replay(t, path, moves[..k]).Some? {
      ReplayStaysOnPaths(t, path, moves[..k]);
    }
  }

  // ----- No window twice -----

  /** The windows of the events, in order. */
  function WindowsOf(events: seq<CrossingEvent>): (r: seq<WindowId>)
    ensures |r| == |events| && forall i :: 0 <= i < |events| ==> r[i] == events[i].window
  {
    seq(|events|, i requires 0 <= i < |events| => events[i].window)
  }

  lemma WindowsConcat(a: seq<CrossingEvent>, b: seq<CrossingEvent>)
    ensures WindowsOf(a + b) == WindowsOf(a) + WindowsOf(b)
  {
  }

  lemma {:induction false} LeavesWindows(chain: seq<WindowId>, k: nat, detail: Detail)
    requires 1 <= k <= |chain|
    ensures WindowsOf(LeavesUp(chain, k, detail)) == chain[1..k]
  {
    if k == 1 {
      assert LeavesUp(chain, k, detail) == [];
    } else {
      LeavesWindows(chain, k - 1, detail);
      assert chain[1..k] == chain[1..k - 1] + [chain[k - 1]];
      WindowsConcat(LeavesUp(chain, k - 1, detail), [CrossingEvent(chain[k - 1], Leave, detail, chain[k - 2])]);
    }
  }

  lemma {:induction false} EntersWindows(chain: seq<WindowId>, k: nat, detail: Detail)
    requires 1 <= k <= |chain|
    ensures WindowsOf(EntersDown(chain, k, detail)) == Reverse(chain[1..k])
  {
    if k == 1 {
      assert EntersDown(chain, k, detail) == [] && chain[1..k] == [];
    } else {
      EntersWindows(chain, k - 1, detail);
      assert chain[1..k] == chain[1..k - 1] + [chain[k - 1]];
      ReverseConcat(chain[1..k - 1], [chain[k - 1]]);
      assert Reverse([chain[k - 1]]) == [chain[k - 1]];
      WindowsConcat([CrossingEvent(chain[k - 1], Enter, detail, chain[k - 2])], EntersDown(chain, k - 1, detail));
    }
  }

  lemma {:induction false} ReverseMembers<T>(s: seq<T>, x: T)
    ensures x in Reverse(s) <==> x in s
  {
    if s == [] {
    } else {
      ReverseMembers(s[1..], x);
      assert x in s <==> x == s[0] || x in s[1..];
    }
  }

  lemma {:induction false} ReverseNoDups<T>(s: seq<T>)
    requires NoDups(s)
    ensures NoDups(Reverse(s))
  {
    if s == [] {
    } else {
      ReverseNoDups(s[1..]);
      ReverseMembers(s[1..], s[0]);
    }
  }

  predicate Disjoint<T(==)>(a: seq<T>, b: seq<T>) {
    forall x :: x in a ==> x !in b
  }

  lemma NoDupsConcat<T>(a: seq<T>, b: seq<T>)
    requires NoDups(a) && NoDups(b) && Disjoint(a, b)
    ensures NoDups(a + b)
  {
    forall i, j | 0 <= i < j < |a + b| ensures (a + b)[i] != (a + b)[j] {
      if i < |a| <= j {
        assert a[i] in a && b[j - |a|] in b;
      }
    }
  }

  lemma ThreeWindows(first: CrossingEvent, middle: seq<CrossingEvent>, last: CrossingEvent)
    ensures WindowsOf([first] + middle + [last]) == [first.window] + WindowsOf(middle) + [last.window]
  {
  }

  /** Up: the path from the window left to the window entered, once each. */
  lemma UpWindows(from: WindowId, to: WindowId, fc: seq<WindowId>)
    requires fc != [] && fc[0] == from && to in fc[1..] && NoDups(fc)
    ensures NoDups(WindowsOf(UpEvents(from, to, fc)))
  {
    var k := 1 + IndexOf(fc[1..], Some(to));
    LeavesWindows(fc, k, Virtual);
    ThreeWindows(CrossingEvent(from, Leave, Ancestor, NONE), LeavesUp(fc, k, Virtual),
                 CrossingEvent(to, Enter, Inferior, NONE));
    assert k < |fc| && fc[k] == to;
    assert [from] + fc[1..k] + [to] == fc[..k + 1];
  }

  /** Down: the same path backwards. */
  lemma DownWindows(from: WindowId, to: WindowId, tc: seq<WindowId>)
    requires tc != [] && tc[0] == to && from in tc[1..] && NoDups(tc)
    ensures NoDups(WindowsOf(DownEvents(from, to, tc)))
  {
    hide Reverse, EntersDown;
    var k := 1 + IndexOf(tc[1..], Some(from));
    EntersWindows(tc, k, Virtual);
    ThreeWindows(CrossingEvent(from, Leave, Inferior, NONE), EntersDown(tc, k, Virtual),
                 CrossingEvent(to, Enter, Ancestor, NONE));
    assert k < |tc| && tc[k] == from;
    ReverseAround(to, tc[1..k], from);
    assert [to] + tc[1..k] + [from] == tc[..k + 1];
    ReverseNoDups(tc[..k + 1]);
  }

  lemma ReverseAround<T>(a: T, s: seq<T>, b: T)
    ensures Reverse([a] + s + [b]) == [b] + Reverse(s) + [a]
  {
    ReverseConcat([a] + s, [b]);
    ReverseConcat([a], s);
    assert Reverse([a]) == [a] && Reverse([b]) == [b];
  }

  lemma LeaveAndUpWindows(from: WindowId, fc: seq<WindowId>, k: nat)
    requires 1 <= k <= |fc| && fc[0] == from
    ensures WindowsOf([CrossingEvent(from, Leave, Nonlinear, NONE)] + LeavesUp(fc, k, NonlinearVirtual)) == fc[..k]
  {
    LeavesWindows(fc, k, NonlinearVirtual);
    hide LeavesUp;
    assert [from] + fc[1..k] == fc[..k];
  }

  lemma DownAndEnterWindows(to: WindowId, tc: seq<WindowId>, l: nat)
    requires 1 <= l <= |tc| && tc[0] == to
    ensures WindowsOf(EntersDown(tc, l, NonlinearVirtual) + [CrossingEvent(to, Enter, Nonlinear, NONE)]) == Reverse(tc[..l])
  {
    EntersWindows(tc, l, NonlinearVirtual);
    ReverseConcat([to], tc[1..l]);
    ReverseOne(to);
    hide EntersDown, Reverse;
    assert [to] + tc[1..l] == tc[..l];
  }

  /** Across: one chain upwards and another one downwards. */
  lemma AcrossWindows(from: WindowId, to: WindowId, fc: seq<WindowId>, tc: seq<WindowId>, common: Option<WindowId>)
    requires fc != [] && tc != [] && fc[0] == from && tc[0] == to
    ensures var k, l := 1 + IndexOf(fc[1..], common), 1 + IndexOf(tc[1..], common);
            WindowsOf(AcrossEvents(from, to, fc, tc, common)) == fc[..k] + Reverse(tc[..l])
  {
    var k, l := 1 + IndexOf(fc[1..], common), 1 + IndexOf(tc[1..], common);
    hide Reverse, LeavesUp, EntersDown, IndexOf;
    var up := [CrossingEvent(from, Leave, Nonlinear, NONE)] + LeavesUp(fc, k, NonlinearVirtual);
    var down := EntersDown(tc, l, NonlinearVirtual) + [CrossingEvent(to, Enter, Nonlinear, NONE)];
    LeaveAndUpWindows(from, fc, k);
    DownAndEnterWindows(to, tc, l);
    assert AcrossEvents(from, to, fc, tc, common) == up + down;
    hide AcrossEvents;
    WindowsConcat(up, down);
  }

  /** Two parts of chains that have no window in common. */
  lemma ThereAndBackNoTwice(a: seq<WindowId>, b: seq<WindowId>)
    requires NoDups(a) && NoDups(b) && Disjoint(a, b)
    ensures NoDups(a + Reverse(b))
  {
    hide Reverse, NoDups;
    ReverseNoDups(b);
    forall x | x in a ensures x !in Reverse(b) {
      ReverseMembers(b, x);
    }
    NoDupsConcat(a, Reverse(b));
  }

  lemma ReverseOne<T>(x: T)
    ensures Reverse([x]) == [x]
  {
  }

  lemma PrefixNoDups<T>(s: seq<T>, k: nat)
    requires NoDups(s) && k <= |s|
    ensures NoDups(s[..k])
  {
  }

  /** Whether or not a common ancestor is found, the parts walked of two paths have no window in common. */
  lemma WalkedDisjoint(p: seq<WindowId>, q: seq<WindowId>, i: nat, j: nat, m: nat, n: nat)
    requires Forks(p, q, i, j) && NoDups(p) && 1 <= m <= |p| && 1 <= n <= |q|
    ensures Disjoint(p[..Walked(i, j, m, n).0], q[..Walked(i, j, m, n).1])
  {
    var w := Walked(i, j, m, n);
    forall x | x in p[..w.0] ensures x !in q[..w.1] {
      if x in q[..w.1] {
        var k :| 0 <= k < w.0 && p[k] == x;
        var l :| 0 <= l < w.1 && q[l] == x;
        BeforeFork(p, q, i, j, k, l);
      }
    }
  }

  lemma CutPathsNoTwice(p: seq<WindowId>, q: seq<WindowId>, i: nat, j: nat, m: nat, n: nat)
    requires Forks(p, q, i, j) && NoDups(p) && NoDups(q) && 1 <= m <= |p| && 1 <= n <= |q|
    ensures NoDups(WindowsOf(CrossingsOf(p[0], q[0], p[..m], q[..n])))
  {
    var fc, tc := p[..m], q[..n];
    hide Forks, UpEvents, DownEvents, AcrossEvents, NoDups, FirstCommon, IndexOf, WindowsOf, Walked;
    PrefixNoDups(p, m);
    PrefixNoDups(q, n);
    if p[0] == q[0] {
      EmptyNoDups();
    } else if q[0] in fc[1..] {
      UpWindows(p[0], q[0], fc);
    } else if p[0] in tc[1..] {
      DownWindows(p[0], q[0], tc);
    } else {
      AcrossNoTwice(p, q, i, j, m, n);
    }
  }

  lemma AcrossNoTwice(p: seq<WindowId>, q: seq<WindowId>, i: nat, j: nat, m: nat, n: nat)
    requires Forks(p, q, i, j) && NoDups(p) && NoDups(q) && 1 <= m <= |p| && 1 <= n <= |q|
    requires p[0] != q[0] && q[0] !in p[..m][1..] && p[0] !in q[..n][1..]
    ensures NoDups(WindowsOf(AcrossEvents(p[0], q[0], p[..m], q[..n], FirstCommon(p[..m], q[..n]))))
  {
    var fc, tc, w := p[..m], q[..n], Walked(i, j, m, n);
    hide Forks, AcrossEvents, NoDups, FirstCommon, IndexOf, WindowsOf, Reverse;
    WalkedDisjoint(p, q, i, j, m, n);
    ForkInside(p, q, i, j, m, n);
    AcrossWindows(p[0], q[0], fc, tc, FirstCommon(fc, tc));
    PrefixNoDups(p, w.0);
    PrefixNoDups(q, w.1);
    ThereAndBackNoTwice(p[..w.0], q[..w.1]);
    assert fc[..w.0] == p[..w.0] && tc[..w.1] == q[..w.1];
  }

  lemma EmptyNoDups()
    ensures NoDups(WindowsOf([]))
  {
  }

  /** No window gets two events of one crossing, the two end windows included, however deep they are. */
  lemma NoWindowTwice(t: Table, from: WindowId, to: WindowId)
    requires WellFormed(t) && from in t && to in t && Reaches(t, from) && Reaches(t, to)
    ensures NoDups(WindowsOf(CrossingChain(t, from, to)))
  {
    hide CrossingsOf;
    var p, q := RootPath(t, from), RootPath(t, to);
    var (i, j) := ForkDistances(t, from, to);
    RootPathNoDups(t, from);
    RootPathNoDups(t, to);
    ChainIsPath(t, from, MAX_HOPS);
    ChainIsPath(t, to, MAX_HOPS);
    CutPathsNoTwice(p, q, i, j, Min(MAX_HOPS + 1, |p|), Min(MAX_HOPS + 1, |q|));
  }
}
