/** Enter/Leave events for a pointer moving between windows, computed from two ancestor chains. */
module Crossings {
  import opened Ints
  import opened Wrappers
  import opened Sequences
  import opened WindowTree

  const NONE: WindowId := 0
  const MAX_HOPS: nat := 256

  datatype Detail = Ancestor | Virtual | Inferior | Nonlinear | NonlinearVirtual | Pointer | PointerRoot | DetailNone

  datatype CrossingKind = Enter | Leave

  datatype CrossingEvent = CrossingEvent(window: WindowId, kind: CrossingKind, detail: Detail, child: WindowId)

  // ----- Ancestor chains -----

  /** `w`, its parent and so on: at most `hops` steps, ending at a window that is its own parent or missing. */
  function ChainFrom(t: Table, w: WindowId, hops: nat): (c: seq<WindowId>)
    ensures c != [] && c[0] == w && |c| <= hops + 1
    decreases hops
  {
    if hops == 0 || w !in t || t[w].parent == w then [w]
    else [w] + ChainFrom(t, t[w].parent, hops - 1)
  }

  function Chain(t: Table, w: WindowId): (c: seq<WindowId>)
    ensures c != [] && c[0] == w
  {
    ChainFrom(t, w, MAX_HOPS)
  }

  method AncestorChain(t: Table, start: WindowId) returns (chain: seq<WindowId>)
    ensures chain == Chain(t, start)
  {
    chain := [start];
    var current := start;
    var hops := 0;
    while hops < MAX_HOPS
      invariant hops <= MAX_HOPS
      invariant chain + ChainFrom(t, current, MAX_HOPS - hops)[1..] == Chain(t, start)
    {
      if current !in t {
        break;
      }
      if t[current].parent == current {
        break;
      }
      ChainStep(t, current, MAX_HOPS - hops);
      chain := chain + [t[current].parent];
      current := t[current].parent;
      hops := hops + 1;
    }
  }

  lemma ChainStep(t: Table, w: WindowId, hops: nat)
    requires hops > 0 && w in t && t[w].parent != w
    ensures var p := t[w].parent;
            ChainFrom(t, w, hops)[1..] == [p] + ChainFrom(t, p, hops - 1)[1..]
  {
  }

  /** In a rooted tree the chain is the path to the root, cut after 257 windows. */
  lemma {:induction false} ChainIsPath(t: Table, w: WindowId, hops: nat)
    requires WellFormed(t) && w in t && Reaches(t, w)
    ensures ChainFrom(t, w, hops) == RootPath(t, w)[..Min(hops + 1, |RootPath(t, w)|)]
    decreases hops
  {
    if w == ROOT {
      RootPathRoot(t);
      assert WindowOk(t, ROOT);
    } else {
      RootPathStep(t, w);
      assert WindowOk(t, w);
      var p := t[w].parent;
      var n := |RootPath(t, w)|;
      if hops > 0 {
        ChainIsPath(t, p, hops - 1);
        assert RootPath(t, w)[..Min(hops + 1, n)] == [w] + RootPath(t, p)[..Min(hops, n - 1)];
      }
    }
  }

  /** The first entry of `b` that is also in `a`. */
  function FirstCommon(a: seq<WindowId>, b: seq<WindowId>): Option<WindowId> {
    if b == [] then None
    else if b[0] in a then Some(b[0])
    else FirstCommon(a, b[1..])
  }

  /** How many entries come before `stop`; all of them if it is missing. */
  function IndexOf(chain: seq<WindowId>, stop: Option<WindowId>): (i: nat)
    ensures i <= |chain|
    ensures stop.Some? ==> stop.value !in chain[..i] && (i < |chain| ==> chain[i] == stop.value)
    ensures stop.None? ==> i == |chain|
  {
    if chain == [] then 0
    else if stop == Some(chain[0]) then 0
    else
      var i := 1 + IndexOf(chain[1..], stop);
      assert chain[..i] == [chain[0]] + chain[1..][..i - 1];
      i
  }

  // ----- The events -----

  /** Leave events on the entries `1 .. k`, upwards; `child` is the entry just left. */
  function LeavesUp(chain: seq<WindowId>, k: nat, detail: Detail): (r: seq<CrossingEvent>)
    requires k <= |chain|
    ensures |r| == if k == 0 then 0 else k - 1
  {
    if k < 2 then [] else LeavesUp(chain, k - 1, detail) + [CrossingEvent(chain[k - 1], Leave, detail, chain[k - 2])]
  }

  /** Enter events on the entries `k - 1, .., 1`, downwards; `child` is the entry entered next. */
  function EntersDown(chain: seq<WindowId>, k: nat, detail: Detail): (r: seq<CrossingEvent>)
    requires k <= |chain|
    ensures |r| == if k == 0 then 0 else k - 1
  {
    if k < 2 then [] else [CrossingEvent(chain[k - 1], Enter, detail, chain[k - 2])] + EntersDown(chain, k - 1, detail)
  }

  /** `to` is an ancestor of `from`. */
  function UpEvents(from: WindowId, to: WindowId, fc: seq<WindowId>): seq<CrossingEvent>
    requires fc != []
  {
    [CrossingEvent(from, Leave, Ancestor, NONE)] + LeavesUp(fc, 1 + IndexOf(fc[1..], Some(to)), Virtual)
    + [CrossingEvent(to, Enter, Inferior, NONE)]
  }

  /** `from` is an ancestor of `to`. */
  function DownEvents(from: WindowId, to: WindowId, tc: seq<WindowId>): seq<CrossingEvent>
    requires tc != []
  {
    [CrossingEvent(from, Leave, Inferior, NONE)] + EntersDown(tc, 1 + IndexOf(tc[1..], Some(from)), Virtual)
    + [CrossingEvent(to, Enter, Ancestor, NONE)]
  }

  /** Neither: up to the common ancestor and down again. */
  function AcrossEvents(from: WindowId, to: WindowId, fc: seq<WindowId>, tc: seq<WindowId>, common: Option<WindowId>)
    : seq<CrossingEvent>
    requires fc != [] && tc != []
  {
    [CrossingEvent(from, Leave, Nonlinear, NONE)] + LeavesUp(fc, 1 + IndexOf(fc[1..], common), NonlinearVirtual)
    + EntersDown(tc, 1 + IndexOf(tc[1..], common), NonlinearVirtual)
    + [CrossingEvent(to, Enter, Nonlinear, NONE)]
  }

  function CrossingsOf(from: WindowId, to: WindowId, fc: seq<WindowId>, tc: seq<WindowId>): seq<CrossingEvent>
    requires fc != [] && tc != []
  {
    if from == to then []
    else if to in fc[1..] then UpEvents(from, to, fc)
    else if from in tc[1..] then DownEvents(from, to, tc)
    else AcrossEvents(from, to, fc, tc, FirstCommon(fc, tc))
  }

  function CrossingChain(t: Table, from: WindowId, to: WindowId): seq<CrossingEvent> {
    CrossingsOf(from, to, Chain(t, from), Chain(t, to))
  }

  /** The upward loop: leave every window after the first, up to the one to stop at. */
  method PushLeaves(chain: seq<WindowId>, stop: Option<WindowId>, detail: Detail) returns (events: seq<CrossingEvent>)
    requires chain != []
    ensures events == LeavesUp(chain, 1 + IndexOf(chain[1..], stop), detail)
  {
    events := [];
    var i := 1;
    while i < |chain|
      invariant 1 <= i <= |chain|
      invariant IndexOf(chain[1..], stop) == i - 1 + IndexOf(chain[i..], stop)
      invariant events == LeavesUp(chain, i, detail)
    {
      if stop == Some(chain[i]) {
        break;
      }
      assert chain[i..][1..] == chain[i + 1..];
      events := events + [CrossingEvent(chain[i], Leave, detail, chain[i - 1])];
      i := i + 1;
    }
  }

  /** The indices of the windows between the first one and `stop`. */
  method GatherIndices(chain: seq<WindowId>, stop: Option<WindowId>) returns (indices: seq<nat>)
    requires chain != []
    ensures |indices| == IndexOf(chain[1..], stop)
    ensures forall j :: 0 <= j < |indices| ==> indices[j] == j + 1
  {
    indices := [];
    var i := 1;
    while i < |chain|
      invariant 1 <= i <= |chain| && |indices| == i - 1
      invariant IndexOf(chain[1..], stop) == i - 1 + IndexOf(chain[i..], stop)
      invariant forall j :: 0 <= j < |indices| ==> indices[j] == j + 1
    {
      if stop == Some(chain[i]) {
        break;
      }
      assert chain[i..][1..] == chain[i + 1..];
      indices := indices + [i];
      i := i + 1;
    }
  }

  /** The downward loops: gather the windows to enter, reverse them, and enter. */
  method PushEnters(chain: seq<WindowId>, stop: Option<WindowId>, detail: Detail) returns (events: seq<CrossingEvent>)
    requires chain != []
    ensures events == EntersDown(chain, 1 + IndexOf(chain[1..], stop), detail)
  {
    hide EntersDown;
    var indices := GatherIndices(chain, stop);
    events := [];
    EntersNothing(chain, detail);
    var k := |indices|;
    while k > 0
      invariant 0 <= k <= |indices|
      invariant events + EntersDown(chain, k + 1, detail) == EntersDown(chain, 1 + |indices|, detail)
    {
      EntersStep(chain, k, detail);
      k := k - 1;
      SeqAssoc(events, [CrossingEvent(chain[k + 1], Enter, detail, chain[k])], EntersDown(chain, k + 1, detail));
      events := events + [CrossingEvent(chain[indices[k]], Enter, detail, chain[indices[k] - 1])];
    }
  }

  lemma EntersNothing(chain: seq<WindowId>, detail: Detail)
    requires chain != []
    ensures EntersDown(chain, 1, detail) == []
  {
  }

  lemma EntersStep(chain: seq<WindowId>, k: nat, detail: Detail)
    requires 0 < k < |chain|
    ensures EntersDown(chain, k + 1, detail)
         == [CrossingEvent(chain[k], Enter, detail, chain[k - 1])] + EntersDown(chain, k, detail)
  {
  }

  method ComputeCrossingChain(t: Table, from: WindowId, to: WindowId) returns (events: seq<CrossingEvent>)
    ensures events == CrossingChain(t, from, to)
  {
    hide LeavesUp, EntersDown, IndexOf, FirstCommon, Chain;
    if from == to {
      return [];
    }
    var fc := AncestorChain(t, from);
    var tc := AncestorChain(t, to);
    if to in fc[1..] {
      var up := PushLeaves(fc, Some(to), Virtual);
      return [CrossingEvent(from, Leave, Ancestor, NONE)] + up + [CrossingEvent(to, Enter, Inferior, NONE)];
    }
    if from in tc[1..] {
      var down := PushEnters(tc, Some(from), Virtual);
      return [CrossingEvent(from, Leave, Inferior, NONE)] + down + [CrossingEvent(to, Enter, Ancestor, NONE)];
    }
    var common := FirstCommon(fc, tc);
    var up := PushLeaves(fc, common, NonlinearVirtual);
    var down := PushEnters(tc, common, NonlinearVirtual);
    return [CrossingEvent(from, Leave, Nonlinear, NONE)] + up + down + [CrossingEvent(to, Enter, Nonlinear, NONE)];
  }

  // ----- Replaying events on a client's view -----

  /** What an event does to the path of windows a client believes the pointer (or the focus) is in. */
  datatype Move = Pop(window: WindowId) | Push(window: WindowId)

  /** A window may be entered below the deepest one in view, and only if it is not in view already. */
  predicate CanPush(t: Table, view: seq<WindowId>, w: WindowId) {
    w !in view && if view == [] then w == ROOT else w in t && t[w].parent == view[0]
  }

  /** The view is a path, deepest window first. `None` is an event that does not fit the view. */
  function Replay(t: Table, view: seq<WindowId>, moves: seq<Move>): Option<seq<WindowId>>
    decreases |moves|
  {
    if moves == [] then Some(view)
    else
      match moves[0]
      case Pop(w) => if view != [] && view[0] == w then Replay(t, view[1..], moves[1..]) else None
      case Push(w) => if CanPush(t, view, w) then Replay(t, [w] + view, moves[1..]) else None
  }

  function PopAll(ws: seq<WindowId>): (m: seq<Move>)
    ensures |m| == |ws|
  {
    if ws == [] then [] else [Pop(ws[0])] + PopAll(ws[1..])
  }

  function PushAll(ws: seq<WindowId>): (m: seq<Move>)
    ensures |m| == |ws|
  {
    if ws == [] then [] else [Push(ws[0])] + PushAll(ws[1..])
  }

  lemma {:induction false} ReplayConcat(t: Table, view: seq<WindowId>, a: seq<Move>, b: seq<Move>)
    ensures Replay(t, view, a + b)
         == match Replay(t, view, a) case None => None case Some(v) => Replay(t, v, b)
    decreases |a|
  {
    if a == [] {
      assert a + b == b;
    } else {
      assert (a + b)[1..] == a[1..] + b;
      match a[0]
      case Pop(w) => if view != [] { ReplayConcat(t, view[1..], a[1..], b); }
      case Push(w) => ReplayConcat(t, [w] + view, a[1..], b);
    }
  }

  /** Popping the first `k` windows of the view leaves the rest. */
  lemma {:induction false} ReplayPops(t: Table, view: seq<WindowId>, k: nat)
    requires k <= |view|
    ensures Replay(t, view, PopAll(view[..k])) == Some(view[k..])
    decreases k
  {
    if k == 0 {
    } else {
      assert view[..k][1..] == view[1..][..k - 1];
      ReplayPops(t, view[1..], k - 1);
    }
  }

  /** Pushing the rest of a path back, from the view upwards, completes the path. */
  lemma {:induction false} ReplayPushes(t: Table, path: seq<WindowId>, k: nat)
    requires k <= |path| && NoDups(path)
    requires forall i :: 0 <= i < |path| ==> path[i] in t
    requires forall i :: 0 <= i < |path| - 1 ==> t[path[i]].parent == path[i + 1]
    requires path != [] && path[|path| - 1] == ROOT
    ensures Replay(t, path[k..], PushAll(Reverse(path[..k]))) == Some(path)
    decreases k
  {
    if k == 0 {
    } else {
      var ws := Reverse(path[..k]);
      assert path[..k] == path[..k - 1] + [path[k - 1]];
      ReverseConcat(path[..k - 1], [path[k - 1]]);
      assert Reverse([path[k - 1]]) == [path[k - 1]];
      assert ws[0] == path[k - 1] && ws[1..] == Reverse(path[..k - 1]);
      assert CanPush(t, path[k..], path[k - 1]);
      assert [path[k - 1]] + path[k..] == path[k - 1..];
      ReplayPushes(t, path, k - 1);
    }
  }

  lemma FirstPushFails(t: Table, view: seq<WindowId>, ws: seq<WindowId>)
    requires ws != [] && !CanPush(t, view, ws[|ws| - 1])
    ensures Replay(t, view, PushAll(Reverse(ws))) == None
  {
    var n := |ws|;
    assert ws == ws[..n - 1] + [ws[n - 1]];
    ReverseConcat(ws[..n - 1], [ws[n - 1]]);
    assert Reverse([ws[n - 1]]) == [ws[n - 1]];
    assert Reverse(ws)[0] == ws[n - 1];
  }
}
