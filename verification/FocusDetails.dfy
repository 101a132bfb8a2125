/** Every focus event, with its detail and place, told from the paths to the root. */
module FocusDetails {
  import opened Wrappers
  import opened Sequences
  import opened WindowTree
  import opened Crossings
  import opened CrossingReplay
  import opened CrossingLaws
  import opened CrossingDetails
  import opened Focus

  // ----- The runs towards the pointer -----

  /** `v` is on the way from the pointer's window `p` up to `w`; `w` itself only if `inclusive`. */
  ghost predicate OnRun(t: Table, w: WindowId, p: WindowId, inclusive: bool, v: WindowId)
    requires WellFormed(t)
  {
    var near := Near(t, p);
    exists k, l :: 0 <= k < |near| && 0 <= l < |near| && near[k] == v && near[l] == w && (k < l || (inclusive && k == l))
  }

  /** One of the two is above the other, within 256 hops. */
  ghost predicate Kin(t: Table, x: WindowId, p: WindowId)
    requires WellFormed(t)
  {
    x != p && (x in Near(t, p) || p in Near(t, x))
  }

  lemma IsAncestorIff(t: Table, a: WindowId, b: WindowId)
    requires WellFormed(t)
    ensures IsAncestor(t, a, b) <==> a != b && a in Near(t, b)
  {
    NearIsChain(t, b);
    hide Near;
    var chain := Chain(t, b);
    assert chain == [b] + chain[1..];
  }

  lemma NearNoDups(t: Table, w: WindowId)
    requires WellFormed(t)
    ensures NoDups(Near(t, w))
  {
    if w in t {
      assert Reaches(t, w);
      RootPathNoDups(t, w);
    }
  }

  lemma OutsMembers(ws: seq<WindowId>, detail: Detail, e: FocusEvent)
    ensures e in Outs(ws, detail) <==> !e.focusIn && e.detail == detail && e.window in ws
    ensures e in Ins(Reverse(ws), detail) <==> e.focusIn && e.detail == detail && e.window in ws
  {
    OutsHave(ws, detail, e);
    InsHave(Reverse(ws), detail, e);
    ReverseMembers(ws, e.window);
  }

  lemma OutsHave(ws: seq<WindowId>, detail: Detail, e: FocusEvent)
    ensures e in Outs(ws, detail) <==> !e.focusIn && e.detail == detail && e.window in ws
  {
    var r := Outs(ws, detail);
    hide Outs;
    if !e.focusIn && e.detail == detail && e.window in ws {
      var i :| 0 <= i < |ws| && ws[i] == e.window;
      assert r[i] == e;
    }
  }

  lemma InsHave(ws: seq<WindowId>, detail: Detail, e: FocusEvent)
    ensures e in Ins(ws, detail) <==> e.focusIn && e.detail == detail && e.window in ws
  {
    var r := Ins(ws, detail);
    hide Ins;
    if e.focusIn && e.detail == detail && e.window in ws {
      var i :| 0 <= i < |ws| && ws[i] == e.window;
      assert r[i] == e;
    }
  }

  /** The windows of a run, where there is one. */
  lemma RunMembers(t: Table, w: WindowId, p: WindowId, inclusive: bool, v: WindowId)
    requires WellFormed(t) && w in Near(t, p)
    ensures v in RunWindows(t, w, p, inclusive) <==> OnRun(t, w, p, inclusive, v)
  {
    NearIsChain(t, p);
    NearNoDups(t, p);
    hide Near, Chain, IndexOf;
    var near := Near(t, p);
    var l :| 0 <= l < |near| && near[l] == w;
    IndexAt(near, l);
  }

  /** Whether the excluded window, if there is one, is strictly above or below the pointer's. */
  lemma RelatedIff(t: Table, x: Option<WindowId>, p: WindowId)
    requires WellFormed(t)
    ensures Related(t, x, p) <==> x.Some? && Kin(t, x.value, p)
  {
    hide IsAncestor, Near;
    if x.Some? {
      IsAncestorIff(t, x.value, p);
      IsAncestorIff(t, p, x.value);
    }
  }

  /** A window not above the pointer's has no run, and the pointer's own window only an inclusive one. */
  lemma NoRun(t: Table, w: WindowId, p: WindowId, inclusive: bool, v: WindowId)
    requires WellFormed(t)
    ensures w !in Near(t, p) ==> !OnRun(t, w, p, inclusive, v)
    ensures w == p && !inclusive ==> !OnRun(t, w, p, inclusive, v)
  {
    NearNoDups(t, p);
    hide Near;
  }

  /** Exactly these windows get FocusOut with detail Pointer: from the pointer's window up to the focus window,
      unless the excluded window is strictly above or below the pointer's. */
  lemma OutRunExact(t: Table, w: WindowId, p: WindowId, exclude: Option<WindowId>, inclusive: bool, e: FocusEvent)
    requires WellFormed(t)
    ensures e in OutRun(t, w, p, exclude, inclusive)
       <==> !e.focusIn && e.detail == Pointer && OnRun(t, w, p, inclusive, e.window)
            && !(exclude.Some? && Kin(t, exclude.value, p))
  {
    hide Near, RunWindows, IsAncestor, Related, Outs, OnRun, Kin;
    IsAncestorIff(t, w, p);
    RelatedIff(t, exclude, p);
    OutsHave(RunWindows(t, w, p, inclusive), Pointer, e);
    NoRun(t, w, p, inclusive, e.window);
    if w in Near(t, p) {
      RunMembers(t, w, p, inclusive, e.window);
    }
  }

  /** The same for FocusIn, and none either if the excluded window is the pointer's. */
  lemma InRunExact(t: Table, w: WindowId, p: WindowId, exclude: Option<WindowId>, inclusive: bool, e: FocusEvent)
    requires WellFormed(t)
    ensures e in InRun(t, w, p, exclude, inclusive)
       <==> e.focusIn && e.detail == Pointer && OnRun(t, w, p, inclusive, e.window)
            && !(exclude.Some? && (exclude.value == p || Kin(t, exclude.value, p)))
  {
    hide Near, RunWindows, IsAncestor, Related, Ins, Reverse, OnRun, Kin;
    IsAncestorIff(t, w, p);
    RelatedIff(t, exclude, p);
    OutsMembers(RunWindows(t, w, p, inclusive), Pointer, e);
    NoRun(t, w, p, inclusive, e.window);
    if w in Near(t, p) {
      RunMembers(t, w, p, inclusive, e.window);
    }
  }

  // ----- Which events there are -----

  /** What the root is told when the focus leaves for, or comes from, a value that is no window. */
  function RootDetail(raw: WindowId): Detail {
    if raw == 1 then PointerRoot else DetailNone
  }

  ghost predicate Passed(t: Table, a: WindowId, b: WindowId, w: WindowId)
    requires WellFormed(t)
  {
    exists k: nat :: PassesAt(Near(t, a), Near(t, b), k) && w == Near(t, a)[k]
  }

  /** FocusOut: the focus leaves `a` for `b`. The values 0 and 1 are None and PointerRoot. */
  ghost predicate OutExpected(t: Table, a: WindowId, b: WindowId, p: WindowId, w: WindowId, detail: Detail)
    requires WellFormed(t)
  {
    if a <= 1 then
      || (w == ROOT && detail == RootDetail(a))
      || (a == FOCUS_POINTER_ROOT && detail == Pointer && OnRun(t, ROOT, p, true, w))
    else if b <= 1 then
      || (w == a && detail == Nonlinear)
      || (w in Near(t, a)[1..] && detail == NonlinearVirtual)
      || (detail == Pointer && OnRun(t, a, p, false, w))
    else
      || (w == a && detail == EndDetail(Near(t, a), Near(t, b)))
      || (detail == MidDetail(Near(t, a), Near(t, b)) && Passed(t, a, b, w))
      || (detail == Pointer && b !in Near(t, a) && OnRun(t, a, p, false, w) && !(a in Near(t, b) && Kin(t, b, p)))
  }

  /** FocusIn: the focus comes to `b` from `a`. */
  ghost predicate InExpected(t: Table, a: WindowId, b: WindowId, p: WindowId, w: WindowId, detail: Detail)
    requires WellFormed(t)
  {
    if b <= 1 then
      || (w == ROOT && detail == RootDetail(b))
      || (b == FOCUS_POINTER_ROOT && detail == Pointer && OnRun(t, ROOT, p, true, w))
    else if a <= 1 then
      || (w == b && detail == Nonlinear)
      || (b != ROOT && (w == ROOT || w in Near(t, b)[1..]) && detail == NonlinearVirtual)
      || (detail == Pointer && OnRun(t, b, p, false, w))
    else
      || (w == b && detail == EndDetail(Near(t, b), Near(t, a)))
      || (detail == MidDetail(Near(t, b), Near(t, a)) && Passed(t, b, a, w))
      || (detail == Pointer && a !in Near(t, b) && OnRun(t, b, p, false, w)
          && !(b in Near(t, a) && (a == p || Kin(t, a, p))))
  }

  ghost predicate FocusExpected(t: Table, fromRaw: WindowId, toRaw: WindowId, p: WindowId, e: FocusEvent)
    requires WellFormed(t)
  {
    if e.focusIn then InExpected(t, fromRaw, toRaw, p, e.window, e.detail)
    else OutExpected(t, fromRaw, toRaw, p, e.window, e.detail)
  }

  lemma SwitchExact(t: Table, a: WindowId, b: WindowId, p: WindowId, e: FocusEvent)
    requires WellFormed(t) && Special(a) && Special(b) && a != b
    ensures e in Switch(t, a, b, p) <==> FocusExpected(t, a, b, p, e)
  {
    OutRunExact(t, ROOT, p, None, true, e);
    InRunExact(t, ROOT, p, None, true, e);
    hide OutRun, InRun, OnRun;
  }

  lemma ToSpecialExact(t: Table, a: WindowId, b: WindowId, p: WindowId, e: FocusEvent)
    requires WellFormed(t) && !Special(a) && Special(b)
    ensures e in ToSpecial(t, a, b, p) <==> FocusExpected(t, a, b, p, e)
  {
    NearIsChain(t, a);
    BetweenNone(Chain(t, a));
    OutRunExact(t, a, p, None, false, e);
    InRunExact(t, ROOT, p, None, true, e);
    OutsHave(Near(t, a)[1..], NonlinearVirtual, e);
    hide OutRun, InRun, OnRun, Near, Chain, Outs, Between;
  }

  lemma BetweenAndStop(chain: seq<WindowId>, stop: WindowId, w: WindowId)
    requires chain != [] && (forall k :: 1 <= k < |chain| && chain[k] == stop ==> k == |chain| - 1)
    ensures w in Between(chain, Some(stop)) || w == stop <==> w in chain[1..] || w == stop
  {
    var rest := chain[1..];
    var i := IndexOf(rest, Some(stop));
    assert Between(chain, Some(stop)) == rest[..i];
    if i < |rest| {
      assert chain[i + 1] == stop;
      assert rest == rest[..i] + [stop];
    } else {
      assert rest[..i] == rest;
    }
  }

  /** The windows strictly between a window and the root, and the root. */
  lemma BelowRoot(t: Table, b: WindowId, w: WindowId)
    requires WellFormed(t) && b in t && b != ROOT
    ensures w in Between(Chain(t, b), Some(ROOT)) || w == ROOT <==> w in Near(t, b)[1..] || w == ROOT
  {
    NearIsChain(t, b);
    hide Near, Chain, Between, WellFormed;
    forall k | 1 <= k < |Near(t, b)| && Near(t, b)[k] == ROOT ensures k == |Near(t, b)| - 1 {
      RootIsLast(t, b, k);
    }
    BetweenAndStop(Near(t, b), ROOT, w);
  }

  lemma RootIsLast(t: Table, b: WindowId, k: nat)
    requires WellFormed(t) && b in t && k < |Near(t, b)| && Near(t, b)[k] == ROOT
    ensures k == |Near(t, b)| - 1
  {
    assert Reaches(t, b);
    var p := RootPath(t, b);
    RootPathNoDups(t, b);
    assert p[k] == p[|p| - 1];
  }

  lemma FromSpecialExact(t: Table, a: WindowId, b: WindowId, p: WindowId, e: FocusEvent)
    requires WellFormed(t) && Special(a) && !Special(b) && b in t
    ensures e in FromSpecial(t, a, b, p) <==> FocusExpected(t, a, b, p, e)
  {
    OutRunExact(t, ROOT, p, None, true, e);
    InRunExact(t, b, p, None, false, e);
    EnterFromRootExact(t, b, e);
    hide OutRun, InRun, OnRun, Near, EnterFromRoot;
  }

  lemma EnterFromRootExact(t: Table, b: WindowId, e: FocusEvent)
    requires WellFormed(t) && b in t
    ensures e in EnterFromRoot(t, b)
       <==> e.focusIn && b != ROOT && (e.window == ROOT || e.window in Near(t, b)[1..]) && e.detail == NonlinearVirtual
  {
    if b != ROOT {
      BelowRoot(t, b, e.window);
      OutsMembers(Between(Chain(t, b), Some(ROOT)), NonlinearVirtual, e);
      hide Near, Chain, Between, Ins, Reverse;
    }
  }

  /** How far the windows passed reach on each of two paths. */
  function WalkLengths(fc: seq<WindowId>, tc: seq<WindowId>): (nat, nat)
    requires fc != [] && tc != []
  {
    if tc[0] in fc then (1 + IndexOf(fc[1..], Some(tc[0])), 0)
    else if fc[0] in tc then (0, 1 + IndexOf(tc[1..], Some(fc[0])))
    else (1 + IndexOf(fc[1..], FirstCommon(fc, tc)), 1 + IndexOf(tc[1..], FirstCommon(fc, tc)))
  }

  lemma WalkLengthsAre(p: seq<WindowId>, q: seq<WindowId>, i: nat, j: nat, m: nat, n: nat)
    requires Forks(p, q, i, j) && NoDups(p) && NoDups(q) && 1 <= m <= |p| && 1 <= n <= |q| && p[0] != q[0]
    ensures WalkLengths(p[..m], q[..n]) == Walked(i, j, m, n)
    ensures !(q[0] in p[..m] && p[0] in q[..n])
  {
    hide Forks, NoDups, IndexOf, FirstCommon, Walked;
    WalksEnd(p, q, i, j, m, n);
    FirstOrLater(p[..m], q[0]);
    FirstOrLater(q[..n], p[0]);
  }

  lemma FirstOrLater(s: seq<WindowId>, x: WindowId)
    requires s != []
    ensures x in s <==> x == s[0] || x in s[1..]
  {
    assert s == [s[0]] + s[1..];
  }

  /** What all three cases between two windows know of their paths. */
  lemma TwoPaths(t: Table, a: WindowId, b: WindowId)
    requires WellFormed(t) && a in t && b in t && a != b
    ensures !(b in Near(t, a) && a in Near(t, b))
    ensures var w := WalkLengths(Near(t, a), Near(t, b));
            forall k: nat :: (PassesAt(Near(t, a), Near(t, b), k) <==> 0 < k < w.0)
                          && (PassesAt(Near(t, b), Near(t, a), k) <==> 0 < k < w.1)
  {
    assert Reaches(t, a) && Reaches(t, b);
    var p, q := RootPath(t, a), RootPath(t, b);
    RootPathNoDups(t, a);
    RootPathNoDups(t, b);
    var i, j := Fork(t, a, b);
    var m, n := |Near(t, a)|, |Near(t, b)|;
    assert Near(t, a) == p[..m] && Near(t, b) == q[..n];
    hide Forks, NoDups, PassesAt, WalkLengths, Near, Walked, WellFormed, RootPath;
    WalkLengthsAre(p, q, i, j, m, n);
    forall k: nat { PassedIsWalked(p, q, i, j, m, n, k); }
  }

  lemma PassedIs(t: Table, a: WindowId, b: WindowId, chain: seq<WindowId>, stop: Option<WindowId>, w: WindowId)
    requires WellFormed(t) && chain == Near(t, a)
    requires forall k: nat :: PassesAt(chain, Near(t, b), k) <==> 0 < k < 1 + IndexOf(chain[1..], stop)
    ensures w in Between(chain, stop) <==> Passed(t, a, b, w)
  {
    BetweenIs(chain, stop);
    var k := 1 + IndexOf(chain[1..], stop);
    hide Near, Between, IndexOf, PassesAt;
    if w in chain[1..k] {
      var h :| 0 <= h < k - 1 && chain[1..k][h] == w;
      assert PassesAt(chain, Near(t, b), h + 1);
    }
    if Passed(t, a, b, w) {
      var h: nat :| PassesAt(chain, Near(t, b), h) && w == chain[h];
      assert chain[1..k][h - 1] == w;
    }
  }

  lemma NothingPassed(t: Table, a: WindowId, b: WindowId, w: WindowId)
    requires WellFormed(t) && forall k: nat :: !PassesAt(Near(t, a), Near(t, b), k)
    ensures !Passed(t, a, b, w)
  {
  }

  lemma ToAncestorExact(t: Table, a: WindowId, b: WindowId, p: WindowId, e: FocusEvent)
    requires WellFormed(t) && !Special(a) && !Special(b) && a in t && b in t && a != b && b in Near(t, a)
    ensures e in ToAncestor(t, a, b, p) <==> FocusExpected(t, a, b, p, e)
  {
    TwoPaths(t, a, b);
    NearIsChain(t, a);
    InRunExact(t, b, p, Some(a), false, e);
    PassedIs(t, a, b, Near(t, a), Some(b), e.window);
    NothingPassed(t, b, a, e.window);
    OutsHave(Between(Near(t, a), Some(b)), Virtual, e);
    hide InRun, OnRun, Near, Chain, Outs, Between, Passed, PassesAt, Kin, IndexOf;
  }

  lemma ToDescendantExact(t: Table, a: WindowId, b: WindowId, p: WindowId, e: FocusEvent)
    requires WellFormed(t) && !Special(a) && !Special(b) && a in t && b in t && a != b && a in Near(t, b)
    ensures e in ToDescendant(t, a, b, p) <==> FocusExpected(t, a, b, p, e)
  {
    TwoPaths(t, a, b);
    NearIsChain(t, b);
    OutRunExact(t, a, p, Some(b), false, e);
    PassedIs(t, b, a, Near(t, b), Some(a), e.window);
    NothingPassed(t, a, b, e.window);
    OutsMembers(Between(Near(t, b), Some(a)), Virtual, e);
    hide OutRun, OnRun, Near, Chain, Ins, Reverse, Between, Passed, PassesAt, Kin, IndexOf;
  }

  lemma NonrelatedExact(t: Table, a: WindowId, b: WindowId, p: WindowId, e: FocusEvent)
    requires WellFormed(t) && !Special(a) && !Special(b) && a in t && b in t && a != b
    requires a !in Near(t, b) && b !in Near(t, a)
    ensures e in Nonrelated(t, a, b, p) <==> FocusExpected(t, a, b, p, e)
  {
    TwoPaths(t, a, b);
    NearIsChain(t, a);
    NearIsChain(t, b);
    var common := FirstCommon(Near(t, a), Near(t, b));
    OutRunExact(t, a, p, None, false, e);
    InRunExact(t, b, p, None, false, e);
    PassedIs(t, a, b, Near(t, a), common, e.window);
    PassedIs(t, b, a, Near(t, b), common, e.window);
    OutsHave(Between(Near(t, a), common), NonlinearVirtual, e);
    OutsMembers(Between(Near(t, b), common), NonlinearVirtual, e);
    hide OutRun, InRun, OnRun, Near, Chain, Outs, Ins, Reverse, Between, Passed, PassesAt, Kin, IndexOf, FirstCommon;
  }

  /** A change of focus sends exactly these events. The ends learn whether the other focus is above them, below them
      or neither; the windows passed learn which kind of change it is; the root learns of None and PointerRoot;
      and the windows between the pointer and a focus window above it learn that through the pointer. */
  lemma FocusEventsExact(t: Table, fromRaw: WindowId, toRaw: WindowId, p: WindowId, e: FocusEvent)
    requires WellFormed(t) && (fromRaw <= 1 || fromRaw in t) && (toRaw <= 1 || toRaw in t)
    ensures e in FocusEvents(t, fromRaw, toRaw, p) <==> fromRaw != toRaw && FocusExpected(t, fromRaw, toRaw, p, e)
  {
    hide Switch, ToSpecial, FromSpecial, ToAncestor, ToDescendant, Nonrelated, FocusExpected, IsAncestor, Near;
    if fromRaw == toRaw {
    } else if Special(fromRaw) && Special(toRaw) {
      SwitchExact(t, fromRaw, toRaw, p, e);
    } else if Special(toRaw) {
      ToSpecialExact(t, fromRaw, toRaw, p, e);
    } else if Special(fromRaw) {
      FromSpecialExact(t, fromRaw, toRaw, p, e);
    } else {
      IsAncestorIff(t, toRaw, fromRaw);
      IsAncestorIff(t, fromRaw, toRaw);
      if toRaw in Near(t, fromRaw) {
        ToAncestorExact(t, fromRaw, toRaw, p, e);
      } else if fromRaw in Near(t, toRaw) {
        ToDescendantExact(t, fromRaw, toRaw, p, e);
      } else {
        NonrelatedExact(t, fromRaw, toRaw, p, e);
      }
    }
  }

  // ----- In which order they come -----

  /** FocusOut for the pointer, FocusOut, FocusIn, FocusIn for the pointer. */
  function Rank(e: FocusEvent): nat {
    if e.focusIn then (if e.detail == Pointer then 3 else 2) else (if e.detail == Pointer then 0 else 1)
  }

  /** Within a rank, FocusOut goes up the tree and FocusIn goes down. */
  ghost predicate FocusBefore(t: Table, e: FocusEvent, f: FocusEvent) {
    || Rank(e) < Rank(f)
    || (Rank(e) == Rank(f)
        && if e.focusIn then StrictAncestor(t, e.window, f.window) else StrictAncestor(t, f.window, e.window))
  }

  ghost predicate FocusOrdered(t: Table, events: seq<FocusEvent>) {
    forall i, j :: 0 <= i < j < |events| ==> FocusBefore(t, events[i], events[j])
  }

  /** Events of one rank whose windows are `up`, in this order for FocusOut and backwards for FocusIn. */
  ghost predicate Block(t: Table, events: seq<FocusEvent>, rank: nat, up: seq<WindowId>) {
    && (forall e :: e in events ==> Rank(e) == rank)
    && EventWindows(events) == (if rank >= 2 then Reverse(up) else up)
    && Upward(t, up)
  }

  lemma BlockOrdered(t: Table, events: seq<FocusEvent>, rank: nat, up: seq<WindowId>)
    requires Block(t, events, rank, up)
    ensures FocusOrdered(t, events)
  {
    hide StrictAncestor, EventWindows, Reverse;
    forall i, j | 0 <= i < j < |events| ensures FocusBefore(t, events[i], events[j]) {
      assert events[i] in events && events[j] in events;
      assert EventWindows(events)[i] == events[i].window && EventWindows(events)[j] == events[j].window;
      if rank >= 2 {
        ReverseAt(up, i);
        ReverseAt(up, j);
      }
    }
  }

  lemma OrderedConcat(t: Table, a: seq<FocusEvent>, b: seq<FocusEvent>)
    requires FocusOrdered(t, a) && FocusOrdered(t, b)
    requires forall e, f :: e in a && f in b ==> Rank(e) < Rank(f)
    ensures FocusOrdered(t, a + b)
  {
    hide Rank, StrictAncestor;
    var all := a + b;
    forall i, j | 0 <= i < j < |all| ensures FocusBefore(t, all[i], all[j]) {
      if j < |a| {
        assert FocusBefore(t, a[i], a[j]);
      } else if i < |a| {
        assert all[i] in a && all[j] in b;
      } else {
        assert FocusBefore(t, b[i - |a|], b[j - |a|]);
      }
    }
  }

  ghost predicate IsBlock(t: Table, events: seq<FocusEvent>, rank: nat) {
    exists up :: Block(t, events, rank, up)
  }

  lemma IsBlockOrdered(t: Table, events: seq<FocusEvent>, rank: nat)
    requires IsBlock(t, events, rank)
    ensures FocusOrdered(t, events) && forall e :: e in events ==> Rank(e) == rank
  {
    var up :| Block(t, events, rank, up);
    BlockOrdered(t, events, rank, up);
  }

  lemma BlocksOrdered(t: Table, out: seq<FocusEvent>, outs: seq<FocusEvent>, ins: seq<FocusEvent>, into: seq<FocusEvent>)
    requires IsBlock(t, out, 0) && IsBlock(t, outs, 1) && IsBlock(t, ins, 2) && IsBlock(t, into, 3)
    ensures FocusOrdered(t, out + outs + ins + into)
  {
    hide IsBlock, FocusOrdered, Rank;
    IsBlockOrdered(t, out, 0);
    IsBlockOrdered(t, outs, 1);
    IsBlockOrdered(t, ins, 2);
    IsBlockOrdered(t, into, 3);
    OrderedConcat(t, out, outs);
    OrderedConcat(t, out + outs, ins);
    OrderedConcat(t, out + outs + ins, into);
  }

  lemma NoBlock(t: Table, rank: nat)
    ensures IsBlock(t, [], rank)
  {
    assert Block(t, [], rank, []);
  }

  lemma OneBlock(t: Table, e: FocusEvent)
    ensures Block(t, [e], Rank(e), [e.window]) && IsBlock(t, [e], Rank(e))
  {
    ReverseOne(e.window);
    assert EventWindows([e]) == [e.window];
    assert Block(t, [e], Rank(e), [e.window]);
  }

  lemma WindowsOfRuns(ws: seq<WindowId>, detail: Detail)
    ensures EventWindows(Outs(ws, detail)) == ws && EventWindows(Ins(ws, detail)) == ws
  {
    hide Outs, Ins;
  }

  lemma EventWindowsConcat(a: seq<FocusEvent>, b: seq<FocusEvent>)
    ensures EventWindows(a + b) == EventWindows(a) + EventWindows(b)
  {
    hide EventWindows;
  }

  lemma RunIsNear(t: Table, w: WindowId, p: WindowId, inclusive: bool)
    requires WellFormed(t)
    ensures var n := |RunWindows(t, w, p, inclusive)|;
            n <= |Near(t, p)| && RunWindows(t, w, p, inclusive) == Near(t, p)[..n]
  {
    NearIsChain(t, p);
    hide Near, Chain, IndexOf;
  }

  lemma RunUpward(t: Table, w: WindowId, p: WindowId, inclusive: bool)
    requires WellFormed(t)
    ensures Upward(t, RunWindows(t, w, p, inclusive))
  {
    hide RunWindows, WellFormed, StrictAncestor;
    RunIsNear(t, w, p, inclusive);
    if p in t {
      NearUpward(t, p, |RunWindows(t, w, p, inclusive)|);
    }
  }

  lemma OutsBlock(t: Table, ws: seq<WindowId>)
    requires Upward(t, ws)
    ensures IsBlock(t, Outs(ws, Pointer), 0) && IsBlock(t, Ins(Reverse(ws), Pointer), 3)
  {
    hide Upward, Outs, Ins, Reverse, EventWindows;
    WindowsOfRuns(ws, Pointer);
    WindowsOfRuns(Reverse(ws), Pointer);
    forall e { OutsHave(ws, Pointer, e); }
    forall e { InsHave(Reverse(ws), Pointer, e); }
    assert Block(t, Outs(ws, Pointer), 0, ws) && Block(t, Ins(Reverse(ws), Pointer), 3, ws);
  }

  lemma RunBlocks(t: Table, w: WindowId, p: WindowId, exclude: Option<WindowId>, inclusive: bool)
    requires WellFormed(t)
    ensures IsBlock(t, OutRun(t, w, p, exclude, inclusive), 0) && IsBlock(t, InRun(t, w, p, exclude, inclusive), 3)
  {
    RunUpward(t, w, p, inclusive);
    NoBlock(t, 0);
    NoBlock(t, 3);
    OutsBlock(t, RunWindows(t, w, p, inclusive));
    hide RunWindows, IsAncestor, IsBlock, Outs, Ins, Reverse, Related;
  }

  /** FocusOut on a window and the ones above it. */
  lemma OutBlock(t: Table, a: WindowId, k: nat, first: Detail, detail: Detail)
    requires WellFormed(t) && a in t && 1 <= k <= |Near(t, a)| && first != Pointer && detail != Pointer
    ensures IsBlock(t, [FocusEvent(a, false, first)] + Outs(Near(t, a)[1..k], detail), 1)
  {
    var ws := Near(t, a)[1..k];
    var one, more := [FocusEvent(a, false, first)], Outs(ws, detail);
    NearUpward(t, a, k);
    assert Near(t, a)[..k] == [a] + ws;
    hide Near, Outs, EventWindows, Upward;
    forall e { OutsHave(ws, detail, e); }
    WindowsOfRuns(ws, detail);
    OneBlock(t, one[0]);
    EventWindowsConcat(one, more);
    assert Block(t, one + more, 1, [a] + ws);
  }

  /** FocusIn on the windows above one and on itself. */
  lemma InBlock(t: Table, b: WindowId, ws: seq<WindowId>, last: Detail, detail: Detail)
    requires Upward(t, [b] + ws) && last != Pointer && detail != Pointer
    ensures IsBlock(t, Ins(Reverse(ws), detail) + [FocusEvent(b, true, last)], 2)
  {
    var more, one := Ins(Reverse(ws), detail), [FocusEvent(b, true, last)];
    hide Ins, EventWindows, Upward, Reverse;
    forall e { InsHave(Reverse(ws), detail, e); }
    WindowsOfRuns(Reverse(ws), detail);
    OneBlock(t, one[0]);
    EventWindowsConcat(more, one);
    ReverseConcat([b], ws);
    ReverseOne(b);
    assert Block(t, more + one, 2, [b] + ws);
  }

  /** The pointer's run where the focus is PointerRoot, or nothing. */
  lemma RootBlocks(t: Table, p: WindowId, run: bool, raw: WindowId)
    requires WellFormed(t)
    ensures IsBlock(t, if run then OutRun(t, ROOT, p, None, true) else [], 0)
    ensures IsBlock(t, if run then InRun(t, ROOT, p, None, true) else [], 3)
    ensures IsBlock(t, [FocusEvent(ROOT, false, Mark(raw))], 1) && IsBlock(t, [FocusEvent(ROOT, true, Mark(raw))], 2)
  {
    hide OutRun, InRun, IsBlock;
    RunBlocks(t, ROOT, p, None, true);
    NoBlock(t, 0);
    NoBlock(t, 3);
    OneBlock(t, FocusEvent(ROOT, false, Mark(raw)));
    OneBlock(t, FocusEvent(ROOT, true, Mark(raw)));
  }

  lemma SwitchOrdered(t: Table, a: WindowId, b: WindowId, p: WindowId)
    requires WellFormed(t)
    ensures FocusOrdered(t, Switch(t, a, b, p))
  {
    hide OutRun, InRun, IsBlock, FocusOrdered, WellFormed;
    RootBlocks(t, p, a == FOCUS_POINTER_ROOT && b != FOCUS_POINTER_ROOT, a);
    RootBlocks(t, p, b == FOCUS_POINTER_ROOT, b);
    BlocksOrdered(t, if a == FOCUS_POINTER_ROOT && b != FOCUS_POINTER_ROOT then OutRun(t, ROOT, p, None, true) else [],
                  [FocusEvent(ROOT, false, Mark(a))], [FocusEvent(ROOT, true, Mark(b))],
                  if b == FOCUS_POINTER_ROOT then InRun(t, ROOT, p, None, true) else []);
  }

  lemma ToSpecialOrdered(t: Table, a: WindowId, b: WindowId, p: WindowId)
    requires WellFormed(t) && a in t
    ensures FocusOrdered(t, ToSpecial(t, a, b, p))
  {
    NearIsChain(t, a);
    var near := Near(t, a);
    BetweenNone(near);
    assert near[1..|near|] == near[1..];
    var out := OutRun(t, a, p, None, false);
    var first, outs := [FocusEvent(a, false, Nonlinear)], Outs(near[1..], NonlinearVirtual);
    var ins := [FocusEvent(ROOT, true, Mark(b))];
    var into := if b == FOCUS_POINTER_ROOT then InRun(t, ROOT, p, None, true) else [];
    RunBlocks(t, a, p, None, false);
    RootBlocks(t, p, b == FOCUS_POINTER_ROOT, b);
    OutBlock(t, a, |near|, Nonlinear, NonlinearVirtual);
    assert ToSpecial(t, a, b, p) == out + first + outs + ins + into;
    hide OutRun, InRun, IsBlock, Block, FocusOrdered, WellFormed, Outs, Near, Chain, Between, ToSpecial;
    SeqAssoc(out, first, outs);
    BlocksOrdered(t, out, first + outs, ins, into);
  }

  /** From a window up to the root, with the root at the end whether it is near or not. */
  lemma RootEnds(t: Table, b: WindowId) returns (ws: seq<WindowId>)
    requires WellFormed(t) && b in t && b != ROOT
    ensures ws == Between(Near(t, b), Some(ROOT)) && Upward(t, [b] + (ws + [ROOT]))
  {
    var near := Near(t, b);
    BetweenIs(near, Some(ROOT));
    var k := 1 + IndexOf(near[1..], Some(ROOT));
    ws := near[1..k];
    NearUpward(t, b, k);
    var up := near[..k];
    assert near[1..k] == near[1..][..k - 1];
    assert [b] + (ws + [ROOT]) == up + [ROOT];
    forall i | 0 <= i < k ensures StrictAncestor(t, ROOT, up[i]) {
      assert up[i] != ROOT by {
        if i > 0 { assert near[1..][..k - 1][i - 1] == up[i]; }
      }
      RootAbove(t, b, i);
    }
    hide StrictAncestor;
  }

  lemma RootAbove(t: Table, b: WindowId, i: nat)
    requires WellFormed(t) && b in t && i < |Near(t, b)| && Near(t, b)[i] != ROOT
    ensures StrictAncestor(t, ROOT, Near(t, b)[i])
  {
    assert Reaches(t, b);
    RootPathSuffix(t, b, i);
    var q := RootPath(t, Near(t, b)[i]);
    assert q[1..][|q| - 2] == ROOT;
  }

  lemma FromSpecialOrdered(t: Table, a: WindowId, b: WindowId, p: WindowId)
    requires WellFormed(t) && b in t
    ensures FocusOrdered(t, FromSpecial(t, a, b, p))
  {
    var out := if a == FOCUS_POINTER_ROOT then OutRun(t, ROOT, p, None, true) else [];
    var outs := [FocusEvent(ROOT, false, Mark(a))];
    var ins, last := EnterFromRoot(t, b), [FocusEvent(b, true, Nonlinear)];
    var into := InRun(t, b, p, None, false);
    RootBlocks(t, p, a == FOCUS_POINTER_ROOT, a);
    RunBlocks(t, b, p, None, false);
    EnterFromRootBlock(t, b);
    assert FromSpecial(t, a, b, p) == out + outs + ins + last + into;
    hide OutRun, InRun, IsBlock, Block, FocusOrdered, WellFormed, EnterFromRoot, FromSpecial;
    SeqAssoc(out + outs, ins, last);
    BlocksOrdered(t, out, outs, ins + last, into);
  }

  lemma EnterFromRootBlock(t: Table, b: WindowId)
    requires WellFormed(t) && b in t
    ensures IsBlock(t, EnterFromRoot(t, b) + [FocusEvent(b, true, Nonlinear)], 2)
  {
    if b == ROOT {
      OneBlock(t, FocusEvent(b, true, Nonlinear));
      assert [] + [FocusEvent(b, true, Nonlinear)] == [FocusEvent(b, true, Nonlinear)];
    } else {
      NearIsChain(t, b);
      var ws := RootEnds(t, b);
      hide Near, Chain, Between, IsBlock, Block, Upward, Reverse, Ins;
      InBlock(t, b, ws + [ROOT], Nonlinear, NonlinearVirtual);
      ReverseConcat(ws, [ROOT]);
      ReverseOne(ROOT);
      InsFirst(ROOT, Reverse(ws), NonlinearVirtual);
    }
  }

  lemma InsFirst(w: WindowId, ws: seq<WindowId>, detail: Detail)
    ensures Ins([w] + ws, detail) == [FocusEvent(w, true, detail)] + Ins(ws, detail)
  {
    assert ([w] + ws)[1..] == ws;
  }

  lemma ToAncestorParts(t: Table, a: WindowId, b: WindowId, p: WindowId) returns (k: nat)
    requires WellFormed(t)
    ensures 1 <= k <= |Near(t, a)|
    ensures ToAncestor(t, a, b, p) == [] + ([FocusEvent(a, false, Ancestor)] + Outs(Near(t, a)[1..k], Virtual))
                                      + [FocusEvent(b, true, Inferior)] + InRun(t, b, p, Some(a), false)
  {
    NearIsChain(t, a);
    k := 1 + IndexOf(Near(t, a)[1..], Some(b));
    BetweenIs(Near(t, a), Some(b));
    hide Near, Chain, Between, Outs, InRun, IndexOf;
    var outs := [FocusEvent(a, false, Ancestor)] + Outs(Near(t, a)[1..k], Virtual);
    assert [] + outs == outs;
  }

  lemma ToAncestorOrdered(t: Table, a: WindowId, b: WindowId, p: WindowId)
    requires WellFormed(t) && a in t && b in t
    ensures FocusOrdered(t, ToAncestor(t, a, b, p))
  {
    hide *;
    var k := ToAncestorParts(t, a, b, p);
    RunBlocks(t, b, p, Some(a), false);
    NoBlock(t, 0);
    InferiorBlock(t, b);
    OutBlock(t, a, k, Ancestor, Virtual);
    BlocksOrdered(t, [], [FocusEvent(a, false, Ancestor)] + Outs(Near(t, a)[1..k], Virtual),
                  [FocusEvent(b, true, Inferior)], InRun(t, b, p, Some(a), false));
  }

  lemma InferiorBlock(t: Table, w: WindowId)
    ensures IsBlock(t, [FocusEvent(w, true, Inferior)], 2) && IsBlock(t, [FocusEvent(w, false, Inferior)], 1)
  {
    hide IsBlock;
    OneBlock(t, FocusEvent(w, true, Inferior));
    OneBlock(t, FocusEvent(w, false, Inferior));
  }

  lemma NearInBlock(t: Table, b: WindowId, l: nat, last: Detail, detail: Detail)
    requires WellFormed(t) && b in t && 1 <= l <= |Near(t, b)| && last != Pointer && detail != Pointer
    ensures IsBlock(t, Ins(Reverse(Near(t, b)[1..l]), detail) + [FocusEvent(b, true, last)], 2)
  {
    NearUpward(t, b, l);
    assert Near(t, b)[..l] == [b] + Near(t, b)[1..l];
    hide Near, IsBlock, Block, Upward;
    InBlock(t, b, Near(t, b)[1..l], last, detail);
  }

  lemma ToDescendantParts(t: Table, a: WindowId, b: WindowId, p: WindowId) returns (l: nat)
    requires WellFormed(t)
    ensures 1 <= l <= |Near(t, b)|
    ensures ToDescendant(t, a, b, p)
         == OutRun(t, a, p, Some(b), false) + [FocusEvent(a, false, Inferior)]
            + (Ins(Reverse(Near(t, b)[1..l]), Virtual) + [FocusEvent(b, true, Ancestor)]) + []
  {
    NearIsChain(t, b);
    l := 1 + IndexOf(Near(t, b)[1..], Some(a));
    BetweenIs(Near(t, b), Some(a));
    hide Near, Chain, Between, Ins, Reverse, OutRun, IndexOf;
    SeqAssoc(OutRun(t, a, p, Some(b), false) + [FocusEvent(a, false, Inferior)],
             Ins(Reverse(Near(t, b)[1..l]), Virtual), [FocusEvent(b, true, Ancestor)]);
  }

  lemma ToDescendantOrdered(t: Table, a: WindowId, b: WindowId, p: WindowId)
    requires WellFormed(t) && a in t && b in t
    ensures FocusOrdered(t, ToDescendant(t, a, b, p))
  {
    hide *;
    var l := ToDescendantParts(t, a, b, p);
    RunBlocks(t, a, p, Some(b), false);
    NoBlock(t, 3);
    InferiorBlock(t, a);
    NearInBlock(t, b, l, Ancestor, Virtual);
    BlocksOrdered(t, OutRun(t, a, p, Some(b), false), [FocusEvent(a, false, Inferior)],
                  Ins(Reverse(Near(t, b)[1..l]), Virtual) + [FocusEvent(b, true, Ancestor)], []);
  }

  lemma NonrelatedIs(t: Table, a: WindowId, b: WindowId, p: WindowId, common: Option<WindowId>)
    requires common == FirstCommon(Chain(t, a), Chain(t, b))
    ensures Nonrelated(t, a, b, p)
         == OutRun(t, a, p, None, false)
            + ([FocusEvent(a, false, Nonlinear)] + Outs(Between(Chain(t, a), common), NonlinearVirtual))
            + (Ins(Reverse(Between(Chain(t, b), common)), NonlinearVirtual) + [FocusEvent(b, true, Nonlinear)])
            + InRun(t, b, p, None, false)
  {
    hide Chain, Between, Outs, Ins, Reverse, OutRun, InRun, FirstCommon;
    SixParts(OutRun(t, a, p, None, false), [FocusEvent(a, false, Nonlinear)],
             Outs(Between(Chain(t, a), common), NonlinearVirtual),
             Ins(Reverse(Between(Chain(t, b), common)), NonlinearVirtual), [FocusEvent(b, true, Nonlinear)],
             InRun(t, b, p, None, false));
  }

  lemma NonrelatedParts(t: Table, a: WindowId, b: WindowId, p: WindowId) returns (k: nat, l: nat)
    requires WellFormed(t)
    ensures 1 <= k <= |Near(t, a)| && 1 <= l <= |Near(t, b)|
    ensures Nonrelated(t, a, b, p)
         == OutRun(t, a, p, None, false)
            + ([FocusEvent(a, false, Nonlinear)] + Outs(Near(t, a)[1..k], NonlinearVirtual))
            + (Ins(Reverse(Near(t, b)[1..l]), NonlinearVirtual) + [FocusEvent(b, true, Nonlinear)])
            + InRun(t, b, p, None, false)
  {
    hide *;
    NearIsChain(t, a);
    NearIsChain(t, b);
    var common := FirstCommon(Near(t, a), Near(t, b));
    k, l := 1 + IndexOf(Near(t, a)[1..], common), 1 + IndexOf(Near(t, b)[1..], common);
    BetweenIs(Near(t, a), common);
    BetweenIs(Near(t, b), common);
    NonrelatedIs(t, a, b, p, common);
  }

  lemma SixParts(a: seq<FocusEvent>, b: seq<FocusEvent>, c: seq<FocusEvent>, d: seq<FocusEvent>, e: seq<FocusEvent>,
                 f: seq<FocusEvent>)
    ensures a + b + c + d + e + f == a + (b + c) + (d + e) + f
  {
    SeqAssoc(a, b, c);
    SeqAssoc(a + (b + c), d, e);
  }

  lemma NonrelatedOrdered(t: Table, a: WindowId, b: WindowId, p: WindowId)
    requires WellFormed(t) && a in t && b in t
    ensures FocusOrdered(t, Nonrelated(t, a, b, p))
  {
    hide *;
    var k, l := NonrelatedParts(t, a, b, p);
    RunBlocks(t, a, p, None, false);
    RunBlocks(t, b, p, None, false);
    OutBlock(t, a, k, Nonlinear, NonlinearVirtual);
    NearInBlock(t, b, l, Nonlinear, NonlinearVirtual);
    BlocksOrdered(t, OutRun(t, a, p, None, false),
                  [FocusEvent(a, false, Nonlinear)] + Outs(Near(t, a)[1..k], NonlinearVirtual),
                  Ins(Reverse(Near(t, b)[1..l]), NonlinearVirtual) + [FocusEvent(b, true, Nonlinear)],
                  InRun(t, b, p, None, false));
  }

  /** First the windows between the pointer and the old focus, upwards; then the focus leaves upwards and comes
      downwards; last the windows down to the pointer. */
  lemma FocusOrder(t: Table, fromRaw: WindowId, toRaw: WindowId, p: WindowId)
    requires WellFormed(t) && (fromRaw <= 1 || fromRaw in t) && (toRaw <= 1 || toRaw in t)
    ensures FocusOrdered(t, FocusEvents(t, fromRaw, toRaw, p))
  {
    SwitchOrdered(t, fromRaw, toRaw, p);
    if !Special(fromRaw) { ToSpecialOrdered(t, fromRaw, toRaw, p); }
    if !Special(toRaw) { FromSpecialOrdered(t, fromRaw, toRaw, p); }
    if !Special(fromRaw) && !Special(toRaw) {
      ToAncestorOrdered(t, fromRaw, toRaw, p);
      ToDescendantOrdered(t, fromRaw, toRaw, p);
      NonrelatedOrdered(t, fromRaw, toRaw, p);
    }
    hide Switch, ToSpecial, FromSpecial, ToAncestor, ToDescendant, Nonrelated, IsAncestor, FocusBefore;
  }

  lemma FocusBeforeIsOneWay(t: Table, e: FocusEvent, f: FocusEvent)
    ensures !(FocusBefore(t, e, f) && FocusBefore(t, f, e))
  {
    hide StrictAncestor;
    if StrictAncestor(t, f.window, e.window) { StrictIsShallower(t, f.window, e.window); }
    if StrictAncestor(t, e.window, f.window) { StrictIsShallower(t, e.window, f.window); }
  }

  /** Together the two laws say what the computation returns. */
  lemma FocusDetermined(t: Table, fromRaw: WindowId, toRaw: WindowId, p: WindowId, events: seq<FocusEvent>)
    requires WellFormed(t) && (fromRaw <= 1 || fromRaw in t) && (toRaw <= 1 || toRaw in t) && fromRaw != toRaw
    requires FocusOrdered(t, events)
    requires forall e :: e in events <==> FocusExpected(t, fromRaw, toRaw, p, e)
    ensures events == FocusEvents(t, fromRaw, toRaw, p)
  {
    FocusOrder(t, fromRaw, toRaw, p);
    forall e { FocusEventsExact(t, fromRaw, toRaw, p, e); }
    forall e, f { FocusBeforeIsOneWay(t, e, f); }
    hide FocusBefore, FocusExpected, FocusEvents;
    SortedUnique((e, f) => FocusBefore(t, e, f), events, FocusEvents(t, fromRaw, toRaw, p));
  }
}
