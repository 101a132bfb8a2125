/** Every crossing event, with its detail, child and place, told from the two paths to the root. */
module CrossingDetails {
  import opened Ints
  import opened Wrappers
  import opened Sequences
  import opened WindowTree
  import opened Crossings
  import opened CrossingReplay
  import opened CrossingLaws

  /** The window and up to 256 windows above it; a window that does not exist has only itself. */
  ghost function Near(t: Table, w: WindowId): (p: seq<WindowId>)
    requires WellFormed(t)
    ensures p != [] && p[0] == w
  {
    if w in t then
      assert Reaches(t, w);
      RootPath(t, w)[..Min(MAX_HOPS + 1, |RootPath(t, w)|)]
    else [w]
  }

  lemma NearIsChain(t: Table, w: WindowId)
    requires WellFormed(t)
    ensures Chain(t, w) == Near(t, w)
  {
    if w in t {
      assert Reaches(t, w);
      ChainIsPath(t, w, MAX_HOPS);
    }
  }

  /** What the window at the start of `near` is told when the other one is at the start of `other`. */
  function EndDetail(near: seq<WindowId>, other: seq<WindowId>): Detail
    requires near != [] && other != []
  {
    if other[0] in near then Ancestor else if near[0] in other then Inferior else Nonlinear
  }

  /** What the windows in between are told. */
  function MidDetail(near: seq<WindowId>, other: seq<WindowId>): Detail
    requires near != [] && other != []
  {
    if other[0] in near || near[0] in other then Virtual else NonlinearVirtual
  }

  /** The window at position `k` lies above the first one, and neither it nor any window before it is on the
      other path. */
  ghost predicate PassesAt(near: seq<WindowId>, other: seq<WindowId>, k: nat) {
    0 < k < |near| && forall h :: 0 <= h <= k ==> near[h] !in other
  }

  ghost predicate PassingEvent(near: seq<WindowId>, other: seq<WindowId>, kind: CrossingKind, e: CrossingEvent)
    requires near != [] && other != []
  {
    && e.kind == kind && e.detail == MidDetail(near, other)
    && exists k: nat :: PassesAt(near, other, k) && e.window == near[k] && e.child == near[k - 1]
  }

  /** The two ends, the windows left above the one, and the windows entered above the other. */
  ghost predicate CrossingExpected(from: seq<WindowId>, to: seq<WindowId>, e: CrossingEvent)
    requires from != [] && to != []
  {
    || e == CrossingEvent(from[0], Leave, EndDetail(from, to), NONE)
    || e == CrossingEvent(to[0], Enter, EndDetail(to, from), NONE)
    || PassingEvent(from, to, Leave, e)
    || PassingEvent(to, from, Enter, e)
  }

  // ----- Members of the two loops -----

  lemma {:induction false} LeavesMembers(chain: seq<WindowId>, k: nat, detail: Detail, e: CrossingEvent)
    requires k <= |chain|
    ensures e in LeavesUp(chain, k, detail)
       <==> e.kind == Leave && e.detail == detail && exists h :: 0 < h < k && e.window == chain[h] && e.child == chain[h - 1]
  {
    if k < 2 {
    } else {
      LeavesMembers(chain, k - 1, detail, e);
    }
  }

  lemma {:induction false} EntersMembers(chain: seq<WindowId>, k: nat, detail: Detail, e: CrossingEvent)
    requires k <= |chain|
    ensures e in EntersDown(chain, k, detail)
       <==> e.kind == Enter && e.detail == detail && exists h :: 0 < h < k && e.window == chain[h] && e.child == chain[h - 1]
  {
    if k < 2 {
    } else {
      EntersMembers(chain, k - 1, detail, e);
    }
  }

  // ----- Where the walks end -----

  /** The windows passed on one path are those before the fork, if the search sees it, or else all of it. */
  lemma PassedIsWalked(p: seq<WindowId>, q: seq<WindowId>, i: nat, j: nat, m: nat, n: nat, k: nat)
    requires Forks(p, q, i, j) && NoDups(p) && NoDups(q) && 1 <= m <= |p| && 1 <= n <= |q|
    ensures PassesAt(p[..m], q[..n], k) <==> 0 < k < Walked(i, j, m, n).0
    ensures PassesAt(q[..n], p[..m], k) <==> 0 < k < Walked(i, j, m, n).1
  {
    PassedBefore(p, q, i, j, m, n, k);
    PassedBefore(q, p, j, i, n, m, k);
  }

  lemma PassedBefore(p: seq<WindowId>, q: seq<WindowId>, i: nat, j: nat, m: nat, n: nat, k: nat)
    requires Forks(p, q, i, j) && NoDups(p) && NoDups(q) && 1 <= m <= |p| && 1 <= n <= |q|
    ensures PassesAt(p[..m], q[..n], k) <==> 0 < k < Walked(i, j, m, n).0
  {
    var fc, tc := p[..m], q[..n];
    if i < m && j < n {
      assert p[i..][0] == q[j..][0];
      assert fc[i] == tc[j];
      forall h | 0 <= h < i ensures fc[h] !in tc {
        assert fc[h] == p[h];
      }
    } else {
      forall h, l | 0 <= h < m && 0 <= l < n ensures fc[h] != tc[l] {
        BeforeFork(p, q, i, j, h, l);
      }
    }
  }

  /** Where the loops of the three cases stop. */
  lemma WalksEnd(p: seq<WindowId>, q: seq<WindowId>, i: nat, j: nat, m: nat, n: nat)
    requires Forks(p, q, i, j) && NoDups(p) && NoDups(q) && 1 <= m <= |p| && 1 <= n <= |q| && p[0] != q[0]
    ensures var fc, tc, w := p[..m], q[..n], Walked(i, j, m, n);
            if q[0] in fc[1..] then w == (1 + IndexOf(fc[1..], Some(q[0])), 0) && p[0] !in tc
            else if p[0] in tc[1..] then w == (0, 1 + IndexOf(tc[1..], Some(p[0]))) && q[0] !in fc
            else w == (1 + IndexOf(fc[1..], FirstCommon(fc, tc)), 1 + IndexOf(tc[1..], FirstCommon(fc, tc)))
                 && q[0] !in fc && p[0] !in tc
  {
    var fc, tc := p[..m], q[..n];
    hide FirstCommon, IndexOf;
    if q[0] in fc[1..] {
      var k :| 1 <= k < m && fc[k] == q[0];
      ForkUnique(p, q, i, j, k, 0);
      IndexAt(fc, k);
    } else if p[0] in tc[1..] {
      var k :| 1 <= k < n && tc[k] == p[0];
      ForkUnique(p, q, i, j, 0, k);
      IndexAt(tc, k);
    } else {
      ForkInside(p, q, i, j, m, n);
    }
  }

  // ----- Which events there are -----

  lemma UpMembers(fc: seq<WindowId>, tc: seq<WindowId>, k: nat, e: CrossingEvent)
    requires fc != [] && tc != [] && tc[0] in fc && fc[0] !in tc
    requires k == 1 + IndexOf(fc[1..], Some(tc[0]))
    requires forall h: nat :: (PassesAt(fc, tc, h) <==> 0 < h < k) && !PassesAt(tc, fc, h)
    ensures e in UpEvents(fc[0], tc[0], fc) <==> CrossingExpected(fc, tc, e)
  {
    LeavesMembers(fc, k, Virtual, e);
    hide LeavesUp, IndexOf, PassesAt;
  }

  lemma DownMembers(fc: seq<WindowId>, tc: seq<WindowId>, k: nat, e: CrossingEvent)
    requires fc != [] && tc != [] && fc[0] in tc && tc[0] !in fc
    requires k == 1 + IndexOf(tc[1..], Some(fc[0]))
    requires forall h: nat :: (PassesAt(tc, fc, h) <==> 0 < h < k) && !PassesAt(fc, tc, h)
    ensures e in DownEvents(fc[0], tc[0], tc) <==> CrossingExpected(fc, tc, e)
  {
    EntersMembers(tc, k, Virtual, e);
    hide EntersDown, IndexOf, PassesAt;
  }

  lemma AcrossMembers(fc: seq<WindowId>, tc: seq<WindowId>, common: Option<WindowId>, k: nat, l: nat, e: CrossingEvent)
    requires fc != [] && tc != [] && fc[0] !in tc && tc[0] !in fc
    requires k == 1 + IndexOf(fc[1..], common) && l == 1 + IndexOf(tc[1..], common)
    requires forall h: nat :: (PassesAt(fc, tc, h) <==> 0 < h < k) && (PassesAt(tc, fc, h) <==> 0 < h < l)
    ensures e in AcrossEvents(fc[0], tc[0], fc, tc, common) <==> CrossingExpected(fc, tc, e)
  {
    LeavesMembers(fc, k, NonlinearVirtual, e);
    EntersMembers(tc, l, NonlinearVirtual, e);
    hide LeavesUp, EntersDown, IndexOf, PassesAt;
  }

  lemma CutPathEvents(p: seq<WindowId>, q: seq<WindowId>, i: nat, j: nat, m: nat, n: nat, e: CrossingEvent)
    requires Forks(p, q, i, j) && NoDups(p) && NoDups(q) && 1 <= m <= |p| && 1 <= n <= |q| && p[0] != q[0]
    ensures e in CrossingsOf(p[0], q[0], p[..m], q[..n]) <==> CrossingExpected(p[..m], q[..n], e)
  {
    var fc, tc, w := p[..m], q[..n], Walked(i, j, m, n);
    WalksEnd(p, q, i, j, m, n);
    forall h: nat { PassedIsWalked(p, q, i, j, m, n, h); }
    hide PassesAt, Forks, NoDups, UpEvents, DownEvents, AcrossEvents, CrossingExpected, FirstCommon, IndexOf, Walked;
    if q[0] in fc[1..] {
      UpMembers(fc, tc, w.0, e);
    } else if p[0] in tc[1..] {
      DownMembers(fc, tc, w.1, e);
    } else {
      AcrossMembers(fc, tc, FirstCommon(fc, tc), w.0, w.1, e);
    }
  }

  /** A crossing has exactly these events: the two ends learn whether the other one is above them, below them or
      neither; the windows above an end that are not on the other path, nor above one that is, are passed. */
  lemma CrossingEventsExact(t: Table, from: WindowId, to: WindowId, e: CrossingEvent)
    requires WellFormed(t) && from in t && to in t
    ensures e in CrossingChain(t, from, to) <==> from != to && CrossingExpected(Near(t, from), Near(t, to), e)
  {
    assert Reaches(t, from) && Reaches(t, to);
    var p, q := RootPath(t, from), RootPath(t, to);
    RootPathNoDups(t, from);
    RootPathNoDups(t, to);
    NearIsChain(t, from);
    NearIsChain(t, to);
    if from != to {
      var i, j := Fork(t, from, to);
      hide CrossingExpected, Forks, NoDups;
      CutPathEvents(p, q, i, j, Min(MAX_HOPS + 1, |p|), Min(MAX_HOPS + 1, |q|), e);
    }
  }

  // ----- In which order they come -----

  /** Leave comes before Enter; leaving goes up the tree, entering goes down. */
  ghost predicate CrossingBefore(t: Table, e: CrossingEvent, f: CrossingEvent) {
    && (f.kind == Leave ==> e.kind == Leave && StrictAncestor(t, f.window, e.window))
    && (e.kind == Enter ==> f.kind == Enter && StrictAncestor(t, e.window, f.window))
  }

  ghost predicate CrossingsOrdered(t: Table, events: seq<CrossingEvent>) {
    forall i, j :: 0 <= i < j < |events| ==> CrossingBefore(t, events[i], events[j])
  }

  /** Each window lies above the one before it. */
  ghost predicate Upward(t: Table, ws: seq<WindowId>) {
    forall i, j :: 0 <= i < j < |ws| ==> StrictAncestor(t, ws[j], ws[i])
  }

  lemma PathUpward(t: Table, w: WindowId, k: nat)
    requires Reaches(t, w) && k <= |RootPath(t, w)|
    ensures Upward(t, RootPath(t, w)[..k])
  {
    var p := RootPath(t, w);
    forall i, j | 0 <= i < j < k ensures StrictAncestor(t, p[..k][j], p[..k][i]) {
      RootPathSuffix(t, w, i);
      assert p[j] == p[i..][1..][j - i - 1];
    }
  }

  lemma NearUpward(t: Table, w: WindowId, k: nat)
    requires WellFormed(t) && w in t && k <= |Near(t, w)|
    ensures Upward(t, Near(t, w)[..k])
  {
    assert Reaches(t, w);
    PathUpward(t, w, k);
    assert Near(t, w)[..k] == RootPath(t, w)[..k];
  }

  lemma OrderedParts(t: Table, leaves: seq<CrossingEvent>, enters: seq<CrossingEvent>, up: seq<WindowId>, down: seq<WindowId>)
    requires forall e :: e in leaves ==> e.kind == Leave
    requires forall e :: e in enters ==> e.kind == Enter
    requires WindowsOf(leaves) == up && Upward(t, up)
    requires WindowsOf(enters) == Reverse(down) && Upward(t, down)
    ensures CrossingsOrdered(t, leaves + enters)
  {
    var all := leaves + enters;
    hide StrictAncestor;
    forall i, j | 0 <= i < j < |all| ensures CrossingBefore(t, all[i], all[j]) {
      var n := |leaves|;
      if j < n {
        assert all[i] in leaves && all[j] in leaves && up[i] == all[i].window && up[j] == all[j].window;
      } else if i < n {
        assert all[i] in leaves && all[j] in enters;
      } else {
        assert all[i] in enters && all[j] in enters;
        ReverseAt(down, i - n);
        ReverseAt(down, j - n);
        assert WindowsOf(enters)[i - n] == all[i].window && WindowsOf(enters)[j - n] == all[j].window;
      }
    }
  }

  lemma LoopKinds(chain: seq<WindowId>, k: nat, detail: Detail)
    requires k <= |chain|
    ensures forall e :: e in LeavesUp(chain, k, detail) ==> e.kind == Leave
    ensures forall e :: e in EntersDown(chain, k, detail) ==> e.kind == Enter
  {
    hide LeavesUp, EntersDown;
    forall e { LeavesMembers(chain, k, detail, e); }
    forall e { EntersMembers(chain, k, detail, e); }
  }

  lemma LeavePart(fc: seq<WindowId>, k: nat, first: Detail, detail: Detail)
    requires 1 <= k <= |fc|
    ensures var leaves := [CrossingEvent(fc[0], Leave, first, NONE)] + LeavesUp(fc, k, detail);
            WindowsOf(leaves) == fc[..k] && forall e :: e in leaves ==> e.kind == Leave
  {
    hide LeavesUp, WindowsOf;
    LeavesWindows(fc, k, detail);
    LoopKinds(fc, k, detail);
    var one := [CrossingEvent(fc[0], Leave, first, NONE)];
    assert WindowsOf(one) == [fc[0]];
    WindowsConcat(one, LeavesUp(fc, k, detail));
    assert [fc[0]] + fc[1..k] == fc[..k];
  }

  lemma EnterPart(tc: seq<WindowId>, l: nat, detail: Detail, last: Detail)
    requires 1 <= l <= |tc|
    ensures var enters := EntersDown(tc, l, detail) + [CrossingEvent(tc[0], Enter, last, NONE)];
            WindowsOf(enters) == Reverse(tc[..l]) && forall e :: e in enters ==> e.kind == Enter
  {
    hide EntersDown, WindowsOf, Reverse;
    EntersWindows(tc, l, detail);
    LoopKinds(tc, l, detail);
    var one := [CrossingEvent(tc[0], Enter, last, NONE)];
    assert WindowsOf(one) == [tc[0]];
    WindowsConcat(EntersDown(tc, l, detail), one);
    ReverseConcat([tc[0]], tc[1..l]);
    ReverseOne(tc[0]);
    assert [tc[0]] + tc[1..l] == tc[..l];
  }

  lemma OneLeave(e: CrossingEvent)
    ensures WindowsOf([e]) == [e.window] && Reverse([e.window]) == [e.window]
  {
    ReverseOne(e.window);
  }

  lemma OneUpward(t: Table, w: WindowId)
    ensures Upward(t, [w])
  {
  }

  lemma UpOrdered(t: Table, from: WindowId, to: WindowId)
    requires WellFormed(t) && from in t
    ensures var fc := Near(t, from); CrossingsOrdered(t, UpEvents(from, to, fc))
  {
    hide Near, LeavesUp, Upward, CrossingsOrdered, IndexOf, WindowsOf, Reverse, WellFormed;
    var fc := Near(t, from);
    var k := 1 + IndexOf(fc[1..], Some(to));
    NearUpward(t, from, k);
    OneUpward(t, to);
    LeavePart(fc, k, Ancestor, Virtual);
    OneLeave(CrossingEvent(to, Enter, Inferior, NONE));
    OrderedParts(t, [CrossingEvent(from, Leave, Ancestor, NONE)] + LeavesUp(fc, k, Virtual),
                 [CrossingEvent(to, Enter, Inferior, NONE)], fc[..k], [to]);
  }

  lemma DownOrdered(t: Table, from: WindowId, to: WindowId)
    requires WellFormed(t) && to in t
    ensures var tc := Near(t, to); CrossingsOrdered(t, DownEvents(from, to, tc))
  {
    hide Near, EntersDown, Upward, CrossingsOrdered, IndexOf, WindowsOf, Reverse, WellFormed;
    var tc := Near(t, to);
    var l := 1 + IndexOf(tc[1..], Some(from));
    NearUpward(t, to, l);
    OneUpward(t, from);
    EnterPart(tc, l, Virtual, Ancestor);
    var leaves := [CrossingEvent(from, Leave, Inferior, NONE)];
    var down, last := EntersDown(tc, l, Virtual), [CrossingEvent(to, Enter, Ancestor, NONE)];
    OneLeave(leaves[0]);
    OrderedParts(t, leaves, down + last, [from], tc[..l]);
    SeqAssoc(leaves, down, last);
  }

  lemma AcrossOrdered(t: Table, from: WindowId, to: WindowId, common: Option<WindowId>)
    requires WellFormed(t) && from in t && to in t
    ensures CrossingsOrdered(t, AcrossEvents(from, to, Near(t, from), Near(t, to), common))
  {
    var fc, tc := Near(t, from), Near(t, to);
    var k, l := 1 + IndexOf(fc[1..], common), 1 + IndexOf(tc[1..], common);
    NearUpward(t, from, k);
    NearUpward(t, to, l);
    hide Near, LeavesUp, EntersDown, Upward, CrossingsOrdered, IndexOf;
    LeavePart(fc, k, Nonlinear, NonlinearVirtual);
    EnterPart(tc, l, NonlinearVirtual, Nonlinear);
    var leaves := [CrossingEvent(from, Leave, Nonlinear, NONE)] + LeavesUp(fc, k, NonlinearVirtual);
    var down, last := EntersDown(tc, l, NonlinearVirtual), [CrossingEvent(to, Enter, Nonlinear, NONE)];
    OrderedParts(t, leaves, down + last, fc[..k], tc[..l]);
    SeqAssoc(leaves, down, last);
  }

  /** The events come in exactly this order: up from the one window, then down to the other. */
  lemma CrossingOrder(t: Table, from: WindowId, to: WindowId)
    requires WellFormed(t) && from in t && to in t
    ensures CrossingsOrdered(t, CrossingChain(t, from, to))
  {
    NearIsChain(t, from);
    NearIsChain(t, to);
    var fc, tc := Near(t, from), Near(t, to);
    UpOrdered(t, from, to);
    DownOrdered(t, from, to);
    AcrossOrdered(t, from, to, FirstCommon(fc, tc));
    hide Near, UpEvents, DownEvents, AcrossEvents, FirstCommon, CrossingBefore, Chain;
  }

  lemma StrictIsShallower(t: Table, a: WindowId, w: WindowId)
    requires StrictAncestor(t, a, w)
    ensures Reaches(t, a) && Depth(t, a) < Depth(t, w)
  {
    var p := RootPath(t, w);
    var i :| 1 <= i < |p| && p[i] == a;
    RootPathSuffix(t, w, i);
  }

  lemma BeforeIsOneWay(t: Table, e: CrossingEvent, f: CrossingEvent)
    ensures !(CrossingBefore(t, e, f) && CrossingBefore(t, f, e))
  {
    hide StrictAncestor;
    if StrictAncestor(t, f.window, e.window) { StrictIsShallower(t, f.window, e.window); }
    if StrictAncestor(t, e.window, f.window) { StrictIsShallower(t, e.window, f.window); }
  }

  /** Nothing else has these events in this order: together the two laws say what the computation returns. */
  lemma CrossingsDetermined(t: Table, from: WindowId, to: WindowId, events: seq<CrossingEvent>)
    requires WellFormed(t) && from in t && to in t && from != to
    requires CrossingsOrdered(t, events)
    requires forall e :: e in events <==> CrossingExpected(Near(t, from), Near(t, to), e)
    ensures events == CrossingChain(t, from, to)
  {
    CrossingOrder(t, from, to);
    forall e { CrossingEventsExact(t, from, to, e); }
    forall e, f { BeforeIsOneWay(t, e, f); }
    hide CrossingBefore, CrossingExpected, CrossingChain, Near;
    SortedUnique((e, f) => CrossingBefore(t, e, f), events, CrossingChain(t, from, to));
  }
}
