/** Map states: MapWindow with its promotion of waiting descendants, UnmapWindow, and when "Viewable"
    tells the truth. */
module Viewability {
  import opened Ints
  import opened WindowTree
  import opened WindowOps
  import opened WindowDestroy

  predicate Mapped(t: Table, w: WindowId)
    requires w in t
  {
    t[w].mapState != Unmapped
  }

  predicate Shown(t: Table, w: WindowId)
    requires w in t
  {
    t[w].mapState == Viewable
  }

  ghost function DepthOf(t: Table, w: WindowId): nat
    requires WellFormed(t) && w in t
  {
    assert Reaches(t, w);
    Depth(t, w)
  }

  /** `w` lies at or below `c`, and every window from `w` up to and including `c` is mapped. */
  ghost predicate MappedUnder(t: Table, c: WindowId, w: WindowId)
    requires WellFormed(t) && w in t
    decreases DepthOf(t, w)
  {
    Mapped(t, w) && (w == c || (w != ROOT && (ParentDistinct(t, w); MappedUnder(t, c, t[w].parent))))
  }

  /** `w` lies strictly below `id` and is reached from it through mapped windows only, itself included. */
  ghost predicate MappedBelow(t: Table, id: WindowId, w: WindowId)
    requires WellFormed(t) && w in t
    decreases DepthOf(t, w)
  {
    w != ROOT && Mapped(t, w) && (t[w].parent == id || (ParentDistinct(t, w); MappedBelow(t, id, t[w].parent)))
  }

  ghost predicate MappedUnderSome(t: Table, cs: seq<WindowId>, w: WindowId)
    requires WellFormed(t) && w in t
  {
    exists c :: c in cs && MappedUnder(t, c, w)
  }

  /** Being reached from a window is being reached from one of its children. */
  lemma {:induction false} BelowIsUnderAChild(t: Table, id: WindowId, w: WindowId)
    requires WellFormed(t) && id in t && w in t
    ensures MappedBelow(t, id, w) <==> MappedUnderSome(t, t[id].children, w)
    decreases DepthOf(t, w)
  {
    var kids := t[id].children;
    assert WindowOk(t, id) && WindowOk(t, w);
    if w != ROOT && Mapped(t, w) {
      ParentDistinct(t, w);
      var p := t[w].parent;
      BelowIsUnderAChild(t, id, p);
      if p == id {
        assert w in kids && MappedUnder(t, w, w);
      } else {
        assert w !in kids;
        assert forall c :: c in kids ==> (MappedUnder(t, c, w) <==> MappedUnder(t, c, p));
      }
    } else if w == ROOT {
      assert forall c :: c in kids ==> c != ROOT;
    }
  }

  // ----- Promotion -----

  /** Waiting windows among those reached from `cs` become Viewable. */
  ghost function PromoteUnder(t: Table, cs: seq<WindowId>): Table
    requires WellFormed(t)
  {
    map w | w in t ::
      if t[w].mapState == Unviewable && MappedUnderSome(t, cs, w) then t[w].(mapState := Viewable) else t[w]
  }

  ghost function Promote(t: Table, id: WindowId): Table
    requires WellFormed(t)
  {
    map w | w in t ::
      if t[w].mapState == Unviewable && MappedBelow(t, id, w) then t[w].(mapState := Viewable) else t[w]
  }

  /** The same tree with the same windows mapped. */
  ghost predicate SameMapped(t: Table, u: Table) {
    SameLinks(t, u) && forall w :: w in t ==> (t[w].mapState == Unmapped <==> u[w].mapState == Unmapped)
  }

  lemma {:induction false} SameMappedUnder(t: Table, u: Table, c: WindowId, w: WindowId)
    requires WellFormed(t) && WellFormed(u) && SameMapped(t, u) && w in t
    ensures MappedUnder(t, c, w) == MappedUnder(u, c, w)
    ensures MappedBelow(t, c, w) == MappedBelow(u, c, w)
    decreases DepthOf(t, w)
  {
    if w == ROOT {
    } else {
      ParentDistinct(t, w);
      ParentDistinct(u, w);
      SameMappedUnder(t, u, c, t[w].parent);
    }
  }

  lemma PromoteUnderSame(t: Table, cs: seq<WindowId>)
    requires WellFormed(t)
    ensures SameMapped(t, PromoteUnder(t, cs)) && WellFormed(PromoteUnder(t, cs))
    ensures PromoteUnder(t, []) == t
  {
    SameLinksWellFormed(t, PromoteUnder(t, cs));
  }

  /** Promoting from a window is promoting from its children. */
  lemma PromoteIsUnderChildren(t: Table, id: WindowId)
    requires WellFormed(t) && id in t
    ensures Promote(t, id) == PromoteUnder(t, t[id].children)
  {
    forall w | w in t ensures MappedBelow(t, id, w) <==> MappedUnderSome(t, t[id].children, w) {
      BelowIsUnderAChild(t, id, w);
    }
  }

  function ShowWaiting(t: Table, c: WindowId): Table
    requires c in t
  {
    if t[c].mapState == Unviewable then t[c := t[c].(mapState := Viewable)] else t
  }

  /** One turn of the loop over the children: skip an unmapped child; otherwise show it and go down. */
  ghost function PromoteStep(t: Table, c: WindowId): Table
    requires WellFormed(t) && c in t
    ensures SameMapped(t, PromoteStep(t, c)) && WellFormed(PromoteStep(t, c))
  {
    var shown := ShowWaiting(t, c);
    SameLinksWellFormed(t, shown);
    var u := if shown[c].mapState == Viewable then Promote(shown, c) else shown;
    SameLinksWellFormed(shown, u);
    u
  }

  lemma MappedUnderTop(t: Table, c: WindowId, w: WindowId)
    requires WellFormed(t) && w in t && c in t
    ensures MappedUnder(t, c, w) <==> Mapped(t, c) && (w == c || MappedBelow(t, c, w))
    decreases DepthOf(t, w)
  {
    if w != c && w != ROOT {
      ParentDistinct(t, w);
      MappedUnderTop(t, c, t[w].parent);
    }
  }

  lemma PromoteStepCorrect(t: Table, cs: seq<WindowId>, c: WindowId)
    requires WellFormed(t) && c in t && WellFormed(PromoteUnder(t, cs))
    requires !MappedUnderSome(t, cs, c)
    ensures PromoteStep(PromoteUnder(t, cs), c) == PromoteUnder(t, cs + [c])
  {
    PromoteUnderSame(t, cs);
    forall w | w in t ensures PromoteStep(PromoteUnder(t, cs), c)[w] == PromoteUnder(t, cs + [c])[w] {
      PromoteStepAt(t, cs, c, w);
    }
  }

  lemma PromoteStepAt(t: Table, cs: seq<WindowId>, c: WindowId, w: WindowId)
    requires WellFormed(t) && c in t && WellFormed(PromoteUnder(t, cs)) && w in t
    requires !MappedUnderSome(t, cs, c)
    ensures w in PromoteStep(PromoteUnder(t, cs), c)
    ensures PromoteStep(PromoteUnder(t, cs), c)[w] == PromoteUnder(t, cs + [c])[w]
  {
    var s := PromoteUnder(t, cs);
    PromoteUnderSame(t, cs);
    assert s[c] == t[c];
    var shown := ShowWaiting(s, c);
    SameLinksWellFormed(s, shown);
    MappedUnderTop(t, c, w);
    SameMappedUnder(t, shown, c, w);
    assert MappedUnderSome(t, cs + [c], w) <==> MappedUnderSome(t, cs, w) || MappedUnder(t, c, w);
    hide MappedUnderSome, MappedUnder, MappedBelow, WellFormed;
  }

  /** Sibling subtrees do not reach each other. */
  lemma SiblingNotUnder(t: Table, id: WindowId, i: nat)
    requires WellFormed(t) && id in t && i < |t[id].children|
    ensures t[id].children[i] in t && !MappedUnderSome(t, t[id].children[..i], t[id].children[i])
  {
    var kids := t[id].children;
    var c := kids[i];
    assert WindowOk(t, id);
    ParentDistinct(t, c);
    forall d | d in kids[..i] ensures !MappedUnder(t, d, c) {
      assert d in kids && d != c;
      ParentDistinct(t, d);
      if MappedUnder(t, d, c) {
        MappedUnderDepth(t, d, c);
      }
    }
  }

  lemma ChildDeeper(t: Table, u: Table, id: WindowId, c: WindowId)
    requires WellFormed(t) && WellFormed(u) && SameLinks(t, u) && id in t && c in t[id].children
    ensures c in u && |u| == |t| && DepthOf(t, id) < DepthOf(u, c) < |u|
  {
    assert WindowOk(t, id) && WindowOk(u, id);
    ParentDistinct(u, c);
    assert Reaches(t, id) && Reaches(u, c);
    SameParentsSamePaths(t, u, id);
    DepthBound(u, c);
    assert t.Keys == u.Keys;
  }

  lemma MappedUnderDepth(t: Table, c: WindowId, w: WindowId)
    requires WellFormed(t) && c in t && w in t && MappedUnder(t, c, w)
    ensures w == c || DepthOf(t, c) < DepthOf(t, w)
    decreases DepthOf(t, w)
  {
    if w != c {
      ParentDistinct(t, w);
      MappedUnderDepth(t, c, t[w].parent);
    }
  }

  /** What the loop needs to know at child `i`: the recursion gets smaller, and the turn does its part. */
  lemma PromoteTurn(t: Table, id: WindowId, i: nat)
    requires WellFormed(t) && id in t && i < |t[id].children|
    ensures var kids := t[id].children;
            var s := PromoteUnder(t, kids[..i]);
            && WellFormed(s) && kids[i] in s && WellFormed(ShowWaiting(s, kids[i]))
            && |ShowWaiting(s, kids[i])| == |t|
            && DepthOf(t, id) < DepthOf(ShowWaiting(s, kids[i]), kids[i]) < |t|
            && PromoteUnder(t, kids[..i] + [kids[i]])
               == var shown := ShowWaiting(s, kids[i]);
                  if shown[kids[i]].mapState == Viewable then Promote(shown, kids[i]) else shown
  {
    var kids := t[id].children;
    var s := PromoteUnder(t, kids[..i]);
    PromoteUnderSame(t, kids[..i]);
    SiblingNotUnder(t, id, i);
    PromoteStepCorrect(t, kids[..i], kids[i]);
    SameLinksWellFormed(s, ShowWaiting(s, kids[i]));
    hide PromoteUnder, Promote;
    ChildDeeper(t, ShowWaiting(s, kids[i]), id, kids[i]);
  }

  // ----- MapWindow and UnmapWindow -----

  predicate ParentShown(t: Table, id: WindowId)
    requires id in t
  {
    t[id].parent == id || (t[id].parent in t && Shown(t, t[id].parent))
  }

  /** The table afterwards and whether the window was unmapped. */
  ghost function MapWindow(t: Table, id: WindowId): (Table, bool)
    requires WellFormed(t)
  {
    if id !in t then (t, false)
    else
      var u := Marked(t, id);
      SameLinksWellFormed(t, u);
      (if ParentShown(t, id) then Promote(u, id) else u, t[id].mapState == Unmapped)
  }

  function UnmapWindow(t: Table, id: WindowId): (Table, bool) {
    if id == ROOT || id !in t then (t, false)
    else (t[id := t[id].(mapState := Unmapped)], t[id].mapState != Unmapped)
  }

  ghost function StateAfterMap(t: Table, id: WindowId, w: WindowId): MapState
    requires WellFormed(t) && id in t && w in t
  {
    if w == id then (if ParentShown(t, id) then Viewable else Unviewable)
    else if ParentShown(t, id) && MappedBelow(t, id, w) then Viewable
    else t[w].mapState
  }

  /** Mapping below a Viewable parent shows exactly the window and what is reached from it through
      mapped windows; below any other parent it only marks the window. */
  lemma MapWindowExact(t: Table, id: WindowId)
    requires WellFormed(t) && id in t
    ensures var u := MapWindow(t, id).0; WellFormed(u) && SameLinks(t, u)
    ensures forall w :: w in t ==> MapWindow(t, id).0[w].mapState == StateAfterMap(t, id, w)
  {
    var v := Marked(t, id);
    hide WellFormed, MappedBelow, Promote;
    BelowInMarked(t, id);
    if ParentShown(t, id) {
      PromoteExact(v, id);
      hide Promote;
      SameLinksTransitive(t, v, Promote(v, id));
    }
  }

  /** Mapping touches nothing but map states, and reports whether the window was unmapped. */
  lemma MapRecords(t: Table, id: WindowId)
    requires WellFormed(t) && id in t
    ensures var (u, newly) := MapWindow(t, id);
            && u.Keys == t.Keys && (forall w :: w in t ==> u[w] == t[w].(mapState := StateAfterMap(t, id, w)))
            && (newly <==> t[id].mapState == Unmapped)
  {
    MapWindowExact(t, id);
    hide WellFormed, MappedBelow, StateAfterMap;
  }

  /** Unmapping touches nothing but the state of that window, which is never the root, and reports whether it was
      mapped. */
  lemma UnmapRecords(t: Table, id: WindowId)
    ensures var (u, gone) := UnmapWindow(t, id);
            && u.Keys == t.Keys && (forall w :: w in t && w != id ==> u[w] == t[w])
            && (id in t ==> u[id] == if id == ROOT then t[id] else t[id].(mapState := Unmapped))
            && (gone <==> id in t && id != ROOT && Mapped(t, id))
  {
  }

  lemma SameLinksTransitive(t: Table, u: Table, v: Table)
    requires SameLinks(t, u) && SameLinks(u, v)
    ensures SameLinks(t, v)
  {
  }

  function Marked(t: Table, id: WindowId): (u: Table)
    requires id in t
    ensures SameLinks(t, u)
  {
    t[id := t[id].(mapState := if ParentShown(t, id) then Viewable else Unviewable)]
  }

  lemma BelowInMarked(t: Table, id: WindowId)
    requires WellFormed(t) && id in t
    ensures var v := Marked(t, id); WellFormed(v) && !MappedBelow(v, id, id)
    ensures var v := Marked(t, id); forall w :: w in t && w != id ==> MappedBelow(v, id, w) == MappedBelow(t, id, w)
  {
    var v := Marked(t, id);
    SameLinksWellFormed(t, v);
    NotBelowItself(v, id);
    forall w | w in t && w != id ensures MappedBelow(v, id, w) == MappedBelow(t, id, w) {
      BelowIgnoresTop(t, v, id, w);
    }
  }

  lemma PromoteExact(t: Table, id: WindowId)
    requires WellFormed(t) && id in t
    ensures var u := Promote(t, id);
            && WellFormed(u) && SameLinks(t, u)
            && forall w :: w in t ==> u[w].mapState == if MappedBelow(t, id, w) then Viewable else t[w].mapState
  {
    SameLinksWellFormed(t, Promote(t, id));
  }

  /** Whether a window is reached does not depend on the state of the window it is reached from. */
  lemma {:induction false} BelowIgnoresTop(t: Table, u: Table, id: WindowId, w: WindowId)
    requires WellFormed(t) && WellFormed(u) && SameLinks(t, u) && w in t && w != id
    requires forall v :: v in t && v != id ==> t[v].mapState == u[v].mapState
    ensures MappedBelow(t, id, w) == MappedBelow(u, id, w)
    decreases DepthOf(t, w)
  {
    if w == ROOT {
    } else {
      ParentDistinct(t, w);
      ParentDistinct(u, w);
      if t[w].parent != id {
        BelowIgnoresTop(t, u, id, t[w].parent);
      }
    }
  }

  lemma NotBelowItself(t: Table, id: WindowId)
    requires WellFormed(t) && id in t
    ensures !MappedBelow(t, id, id)
  {
    if MappedBelow(t, id, id) {
      BelowIsDeeper(t, id, id);
    }
  }

  lemma BelowIsDeeper(t: Table, id: WindowId, w: WindowId)
    requires WellFormed(t) && id in t && w in t && MappedBelow(t, id, w)
    ensures DepthOf(t, id) < DepthOf(t, w)
    decreases DepthOf(t, w)
  {
    ParentDistinct(t, w);
    if t[w].parent != id {
      BelowIsDeeper(t, id, t[w].parent);
    }
  }

  // ----- When Viewable tells the truth -----

  /** A window is Viewable exactly when it and all its ancestors are mapped. */
  ghost predicate Truthful(t: Table)
    requires WellFormed(t)
  {
    forall w {:trigger Shown(t, w)} :: w in t ==> (Shown(t, w) <==> MappedUnder(t, ROOT, w))
  }

  /** The same, looking one step up only. */
  ghost predicate LocallyTruthful(t: Table)
    requires WellFormed(t)
  {
    forall w {:trigger LocalTruth(t, w)} :: w in t ==> LocalTruth(t, w)
  }

  ghost predicate LocalTruth(t: Table, w: WindowId)
    requires WellFormed(t) && w in t
  {
    Shown(t, w) <==> Mapped(t, w) && (w == ROOT || (ParentDistinct(t, w); Shown(t, t[w].parent)))
  }

  lemma {:induction false} LocalTruthLifts(t: Table, w: WindowId)
    requires WellFormed(t) && LocallyTruthful(t) && w in t
    ensures Shown(t, w) <==> MappedUnder(t, ROOT, w)
    decreases DepthOf(t, w)
  {
    assert LocalTruth(t, w);
    if w == ROOT {
    } else {
      ParentDistinct(t, w);
      LocalTruthLifts(t, t[w].parent);
    }
  }

  lemma TruthfulIffLocal(t: Table)
    requires WellFormed(t)
    ensures Truthful(t) <==> LocallyTruthful(t)
  {
    if Truthful(t) {
      forall w | w in t ensures LocalTruth(t, w) {
        assert Shown(t, w) <==> MappedUnder(t, ROOT, w);
        if w != ROOT {
          ParentDistinct(t, w);
          assert Shown(t, t[w].parent) <==> MappedUnder(t, ROOT, t[w].parent);
        }
      }
    }
    if LocallyTruthful(t) {
      forall w | w in t ensures Shown(t, w) <==> MappedUnder(t, ROOT, w) {
        LocalTruthLifts(t, w);
      }
    }
  }

  lemma MapKeepsTruth(t: Table, id: WindowId)
    requires WellFormed(t) && Truthful(t)
    ensures WellFormed(MapWindow(t, id).0) && Truthful(MapWindow(t, id).0)
  {
    if id in t {
      MapWindowExact(t, id);
      var u := MapWindow(t, id).0;
      TruthfulIffLocal(t);
      TruthfulIffLocal(u);
      forall w | w in u ensures LocalTruth(u, w) {
        MapLocalTruth(t, id, w);
      }
    }
  }

  lemma MapLocalTruth(t: Table, id: WindowId, w: WindowId)
    requires WellFormed(t) && LocallyTruthful(t) && id in t && w in t
    requires var u := MapWindow(t, id).0; WellFormed(u) && SameLinks(t, u)
    ensures LocalTruth(MapWindow(t, id).0, w)
  {
    MapWindowExact(t, id);
    hide MapWindow, LocallyTruthful;
    assert LocallyTruthful(t);
    LocalTruthAt(t, w);
    LocalTruthAt(t, id);
    assert WindowOk(t, ROOT);
    if w != ROOT {
      ParentDistinct(t, w);
    }
    if id != ROOT {
      ParentDistinct(t, id);
    }
  }

  lemma LocalTruthAt(t: Table, w: WindowId)
    requires WellFormed(t) && LocallyTruthful(t) && w in t
    ensures LocalTruth(t, w)
  {
  }

  /** Unmapping keeps the map states truthful exactly when no mapped child is left behind below a
      window that was Viewable. */
  lemma UnmapKeepsTruthIff(t: Table, id: WindowId)
    requires WellFormed(t) && Truthful(t)
    ensures WellFormed(UnmapWindow(t, id).0)
    ensures Truthful(UnmapWindow(t, id).0)
       <==> !(id in t && id != ROOT && Shown(t, id) && exists c :: c in t[id].children && c in t && Mapped(t, c))
  {
    var u := UnmapWindow(t, id).0;
    SameLinksWellFormed(t, u);
    TruthfulIffLocal(t);
    TruthfulIffLocal(u);
    if id in t && id != ROOT {
      assert WindowOk(t, id);
      if c :| c in t[id].children && c in t && Mapped(t, c) && Shown(t, id) {
        LocalTruthAt(t, c);
        ParentDistinct(t, c);
        assert !LocalTruth(u, c);
      } else {
        forall w | w in u ensures LocalTruth(u, w) {
          LocalTruthAt(t, w);
          if w != ROOT {
            ParentDistinct(t, w);
            assert WindowOk(t, w);
          }
        }
      }
    }
  }

  /** A reparent keeps the map states truthful exactly when the window is unmapped or its old and new
      parents are both Viewable or both not. */
  lemma ReparentKeepsTruthIff(t: Table, w: WindowId, p: WindowId, x: Int16, y: Int16)
    requires WellFormed(t) && Truthful(t) && ReparentWindow(t, w, p, x, y).1.Ok?
    ensures WellFormed(ReparentWindow(t, w, p, x, y).0) && w in t && t[w].parent in t && p in t
    ensures Truthful(ReparentWindow(t, w, p, x, y).0)
       <==> !Mapped(t, w) || (Shown(t, t[w].parent) <==> Shown(t, p))
  {
    ReparentKeepsTree(t, w, p, x, y);
    ParentDistinct(t, w);
    var u := MoveUnder(t, w, p, x, y);
    TruthfulIffLocal(t);
    TruthfulIffLocal(u);
    forall v | v in t ensures v in u && u[v].mapState == t[v].mapState && u[v].parent == if v == w then p else t[v].parent {}
    LocalTruthAt(t, w);
    assert LocalTruth(u, w) <==> !Mapped(t, w) || (Shown(t, t[w].parent) <==> Shown(t, p));
    forall v | v in u && v != w ensures LocalTruth(u, v) {
      LocalTruthAt(t, v);
      if v != ROOT {
        ParentDistinct(t, v);
      }
    }
  }

  /** A Viewable window with a Viewable child, beside an unmapped window. */
  function Family(outer: WindowId, inner: WindowId, hidden: WindowId): Table {
    map[ROOT := Window(ROOT, [outer, hidden], 0, 0, 800, 600, 0, Viewable),
        outer := Window(ROOT, [inner], 0, 0, 1, 1, 0, Viewable),
        inner := Window(outer, [], 0, 0, 1, 1, 0, Viewable),
        hidden := Window(ROOT, [], 0, 0, 1, 1, 0, Unmapped)]
  }

  predicate Distinct(outer: WindowId, inner: WindowId, hidden: WindowId) {
    ROOT != outer && ROOT != inner && ROOT != hidden && outer != inner && outer != hidden && inner != hidden
  }

  lemma FamilyReaches(outer: WindowId, inner: WindowId, hidden: WindowId)
    requires Distinct(outer, inner, hidden)
    ensures forall w :: w in Family(outer, inner, hidden) ==> Reaches(Family(outer, inner, hidden), w)
  {
    var t := Family(outer, inner, hidden);
    RootPathRoot(t);
    RootPathStep(t, outer);
    RootPathStep(t, inner);
    RootPathStep(t, hidden);
    hide Reaches, Hops;
  }

  lemma FamilyWindowOk(outer: WindowId, inner: WindowId, hidden: WindowId, w: WindowId)
    requires Distinct(outer, inner, hidden) && w in Family(outer, inner, hidden)
    ensures WindowOk(Family(outer, inner, hidden), w)
  {
  }

  lemma FamilyLocalTruth(outer: WindowId, inner: WindowId, hidden: WindowId, w: WindowId)
    requires Distinct(outer, inner, hidden) && w in Family(outer, inner, hidden)
    requires WellFormed(Family(outer, inner, hidden))
    ensures LocalTruth(Family(outer, inner, hidden), w)
  {
    hide WellFormed;
  }

  lemma FamilyWellFormed(outer: WindowId, inner: WindowId, hidden: WindowId)
    requires Distinct(outer, inner, hidden)
    ensures WellFormed(Family(outer, inner, hidden))
  {
    var t := Family(outer, inner, hidden);
    assert ROOT in t;
    hide Reaches, Family, WindowOk;
    FamilyReaches(outer, inner, hidden);
    forall w | w in t ensures WindowOk(t, w) { FamilyWindowOk(outer, inner, hidden, w); }
  }

  lemma FamilyIsTree(outer: WindowId, inner: WindowId, hidden: WindowId)
    requires Distinct(outer, inner, hidden)
    ensures WellFormed(Family(outer, inner, hidden)) && Truthful(Family(outer, inner, hidden))
  {
    var t := Family(outer, inner, hidden);
    hide WellFormed, Truthful, Family, LocalTruth;
    FamilyWellFormed(outer, inner, hidden);
    forall w | w in t ensures LocalTruth(t, w) { FamilyLocalTruth(outer, inner, hidden, w); }
    TruthfulIffLocal(t);
  }

  /** The inner window stays Viewable when the outer one is unmapped, and when it is moved below the hidden one. */
  lemma StatesCanLie(outer: WindowId, inner: WindowId, hidden: WindowId)
    requires Distinct(outer, inner, hidden)
    ensures var t := Family(outer, inner, hidden);
            && WellFormed(t) && Truthful(t)
            && WellFormed(UnmapWindow(t, outer).0) && !Truthful(UnmapWindow(t, outer).0)
            && ReparentWindow(t, inner, hidden, 0, 0).1.Ok?
            && WellFormed(ReparentWindow(t, inner, hidden, 0, 0).0) && !Truthful(ReparentWindow(t, inner, hidden, 0, 0).0)
  {
    var t := Family(outer, inner, hidden);
    hide Truthful;
    FamilyIsTree(outer, inner, hidden);
    assert inner in t[outer].children && Mapped(t, inner);
    UnmapKeepsTruthIff(t, outer);
    RootPathRoot(t);
    RootPathStep(t, hidden);
    ReparentKeepsTree(t, inner, hidden, 0, 0);
    ReparentKeepsTruthIff(t, inner, hidden, 0, 0);
  }
}
