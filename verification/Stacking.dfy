/** Stacking order: ConfigureWindow's stack modes, CirculateWindow, and the overlay window's fixed place. */
module Stacking {
  import opened Ints
  import opened Wrappers
  import opened WindowTree
  import opened WindowOps

  // ----- Occlusion -----

  datatype Box = Box(left: int, top: int, right: int, bottom: int)

  /** Outer rectangle including the border, in parent coordinates. */
  function BoundingBox(w: Window): Box {
    Box(w.x, w.y, w.x + w.width + 2 * w.borderWidth, w.y + w.height + 2 * w.borderWidth)
  }

  predicate Overlap(a: Window, b: Window) {
    var p := BoundingBox(a);
    var q := BoundingBox(b);
    p.left < q.right && q.left < p.right && p.top < q.bottom && q.top < p.bottom
  }

  /** The pixels of a window with its border, in parent coordinates. */
  predicate InOuter(w: Window, px: int, py: int) {
    w.x <= px < w.x + w.width + 2 * w.borderWidth && w.y <= py < w.y + w.height + 2 * w.borderWidth
  }

  predicate HasPixels(w: Window) {
    w.width + 2 * w.borderWidth > 0 && w.height + 2 * w.borderWidth > 0
  }

  /** The overlap test is what it says: the two outer rectangles share a pixel, whenever both have one. */
  lemma OverlapIsCommonPixel(a: Window, b: Window)
    requires HasPixels(a) && HasPixels(b)
    ensures Overlap(a, b) <==> exists px: int, py: int :: InOuter(a, px, py) && InOuter(b, px, py)
  {
    if Overlap(a, b) {
      assert InOuter(a, Max(a.x, b.x), Max(a.y, b.y)) && InOuter(b, Max(a.x, b.x), Max(a.y, b.y));
    }
  }

  /** Both windows are mapped and their outer rectangles meet. */
  predicate Meets(t: Table, a: WindowId, b: WindowId) {
    a in t && b in t && t[a].mapState != Unmapped && t[b].mapState != Unmapped && Overlap(t[a], t[b])
  }

  /** What the laws below mean by windows that meet. */
  lemma MeetsIff(t: Table, a: WindowId, b: WindowId)
    requires a in t && b in t && HasPixels(t[a]) && HasPixels(t[b])
    ensures Meets(t, a, b)
       <==> t[a].mapState != Unmapped && t[b].mapState != Unmapped
            && exists px: int, py: int :: InOuter(t[a], px, py) && InOuter(t[b], px, py)
  {
    OverlapIsCommonPixel(t[a], t[b]);
  }

  predicate Considered(sibling: Option<WindowId>, other: WindowId) {
    sibling.None? || other == sibling.value
  }

  /** Some considered sibling above position `i` meets the window there. */
  predicate OccludedAt(t: Table, kids: seq<WindowId>, i: nat, sibling: Option<WindowId>)
    requires i < |kids|
  {
    exists j :: i < j < |kids| && Considered(sibling, kids[j]) && Meets(t, kids[i], kids[j])
  }

  /** The window at position `i` meets some considered sibling below it. */
  predicate OccludesAt(t: Table, kids: seq<WindowId>, i: nat, sibling: Option<WindowId>)
    requires i < |kids|
  {
    exists j :: 0 <= j < i && Considered(sibling, kids[j]) && Meets(t, kids[i], kids[j])
  }

  // ----- Restack -----

  datatype RestackAction = NoOp | Top | Bottom | AboveSibling(sibling: WindowId) | BelowSibling(sibling: WindowId)

  function Position(s: seq<WindowId>, w: WindowId): (r: Option<nat>)
    ensures r.Some? <==> w in s
    ensures r.Some? ==> r.value < |s| && s[r.value] == w && w !in s[..r.value]
  {
    if s == [] then None
    else if s[0] == w then Some(0)
    else
      match Position(s[1..], w)
      case None => None
      case Some(i) =>
        assert s[..i + 1] == [s[0]] + s[1..][..i];
        Some(i + 1)
  }

  function ResolveRestack(t: Table, kids: seq<WindowId>, w: WindowId, sibling: Option<WindowId>, mode: int)
    : Option<RestackAction>
  {
    match Position(kids, w)
    case None => None
    case Some(i) =>
      if sibling.Some? && sibling.value !in kids then None
      else if mode == 0 then Some(if sibling.Some? then AboveSibling(sibling.value) else Top)
      else if mode == 1 then Some(if sibling.Some? then BelowSibling(sibling.value) else Bottom)
      else if mode == 2 then Some(if OccludedAt(t, kids, i, sibling) then Top else NoOp)
      else if mode == 3 then Some(if OccludesAt(t, kids, i, sibling) then Bottom else NoOp)
      else if mode == 4 then Some(if OccludedAt(t, kids, i, sibling) then Top
                                  else if OccludesAt(t, kids, i, sibling) then Bottom else NoOp)
      else None
  }

  function RemoveAt(s: seq<WindowId>, i: nat): seq<WindowId>
    requires i < |s|
  {
    s[..i] + s[i + 1..]
  }

  /** The new child list. */
  function ApplyRestack(kids: seq<WindowId>, w: WindowId, action: RestackAction): seq<WindowId>
    requires w in kids
  {
    var rest := RemoveAt(kids, Position(kids, w).value);
    match action
    case NoOp => kids
    case Top => InsertTop(rest, w)
    case Bottom => InsertAt(rest, 0, w)
    case AboveSibling(s) =>
      if s == COW then InsertTop(rest, w)
      else
        (match Position(rest, s)
         case None => InsertAt(rest, |rest|, w)
         case Some(i) => InsertAt(rest, i + 1, w))
    case BelowSibling(s) =>
      match Position(rest, s)
      case None => InsertAt(rest, 0, w)
      case Some(i) => InsertAt(rest, i, w)
  }

  function RestackWindow(t: Table, w: WindowId, sibling: Option<WindowId>, mode: Option<int>): Table {
    if mode.None? || w !in t || t[w].parent !in t then t
    else
      var p := t[w].parent;
      match ResolveRestack(t, t[p].children, w, sibling, mode.value)
      case None => t
      case Some(action) => t[p := t[p].(children := ApplyRestack(t[p].children, w, action))]
  }

  // ----- A restack moves one window -----

  lemma {:induction false} WithoutIsRemoveAt(s: seq<WindowId>, i: nat)
    requires NoDups(s) && i < |s|
    ensures Without(s, s[i]) == RemoveAt(s, i)
  {
    if i == 0 {
      WithoutAbsent(s[1..], s[0]);
    } else {
      WithoutIsRemoveAt(s[1..], i - 1);
    }
  }

  lemma WithoutOne(w: WindowId)
    ensures Without([w], w) == []
  {
  }

  /** Taking the moved window out again gives back the others, in their old order. */
  lemma InsertedOthers(rest: seq<WindowId>, i: nat, w: WindowId)
    requires w !in rest && i <= |rest|
    ensures Without(InsertAt(rest, i, w), w) == rest
  {
    var a, b := rest[..i], rest[i..];
    WithoutConcat(a + [w], b, w);
    WithoutConcat(a, [w], w);
    WithoutAbsent(a, w);
    WithoutAbsent(b, w);
    WithoutOne(w);
    hide Without;
    assert a + [] == a && a + b == rest;
  }

  lemma RestRemoved(kids: seq<WindowId>, w: WindowId)
    requires NoDups(kids) && w in kids
    ensures var rest := RemoveAt(kids, Position(kids, w).value);
            rest == Without(kids, w) && NoDups(rest) && w !in rest
  {
    WithoutIsRemoveAt(kids, Position(kids, w).value);
    WithoutNoDups(kids, w);
  }

  /** The same windows, each once, and all but `w` in their old order. */
  ghost predicate MovesOnly(before: seq<WindowId>, after: seq<WindowId>, w: WindowId) {
    && NoDups(after) && multiset(after) == multiset(before)
    && Without(after, w) == Without(before, w)
  }

  lemma InsertedMultiset(rest: seq<WindowId>, i: nat, w: WindowId)
    requires i <= |rest|
    ensures multiset(InsertAt(rest, i, w)) == multiset(rest) + multiset{w}
  {
    assert rest[..i] + rest[i..] == rest;
  }

  lemma RemovedMultiset(s: seq<WindowId>, i: nat)
    requires i < |s|
    ensures multiset(s) == multiset(RemoveAt(s, i)) + multiset{s[i]}
  {
    assert s == s[..i] + [s[i]] + s[i + 1..];
  }

  lemma ApplyRestackMovesOnly(kids: seq<WindowId>, w: WindowId, action: RestackAction)
    requires NoDups(kids) && w in kids
    ensures MovesOnly(kids, ApplyRestack(kids, w, action), w)
    ensures forall c :: c in ApplyRestack(kids, w, action) <==> c in kids
  {
    var after := ApplyRestack(kids, w, action);
    if action != NoOp {
      var k := Position(kids, w).value;
      var rest := RemoveAt(kids, k);
      RestRemoved(kids, w);
      RemovedMultiset(kids, k);
      var i := InsertionIndex(rest, action);
      RestackIsInsert(kids, w, action);
      InsertedOthers(rest, i, w);
      InsertNoDups(rest, i, w);
      InsertedMultiset(rest, i, w);
    }
  }

  /** Where the window goes back in, counted in the list without it. */
  function InsertionIndex(rest: seq<WindowId>, action: RestackAction): (i: nat)
    ensures i <= |rest|
  {
    match action
    case NoOp => 0
    case Top => CowAwareTop(rest)
    case Bottom => 0
    case AboveSibling(s) =>
      if s == COW then CowAwareTop(rest)
      else if Position(rest, s).Some? then Position(rest, s).value + 1 else |rest|
    case BelowSibling(s) => if Position(rest, s).Some? then Position(rest, s).value else 0
  }

  lemma RestackIsInsert(kids: seq<WindowId>, w: WindowId, action: RestackAction)
    requires w in kids && action != NoOp
    ensures var rest := RemoveAt(kids, Position(kids, w).value);
            ApplyRestack(kids, w, action) == InsertAt(rest, InsertionIndex(rest, action), w)
  {
  }

  /** Immediately above `s`, except that above the overlay window means on top, as for any raised window: just
      below the overlay window when that is the topmost of the others, and last in the list when it is not. */
  lemma LandsAbove(kids: seq<WindowId>, w: WindowId, s: WindowId)
    requires NoDups(kids) && w in kids && s in kids && s != w
    ensures var after, rest := ApplyRestack(kids, w, AboveSibling(s)), Without(kids, w);
            var n := |after|;
            && n >= 2 && rest != []
            && (s != COW ==> exists i :: 0 <= i < n - 1 && after[i] == s && after[i + 1] == w)
            && (s == COW && rest[|rest| - 1] == COW ==> after[n - 1] == COW && after[n - 2] == w)
            && (s == COW && rest[|rest| - 1] != COW ==> after[n - 1] == w)
  {
    var rest := Without(kids, w);
    hide Without, ApplyRestack, InsertionIndex, InsertAt, Position;
    WithoutNoDups(kids, w);
    RestackIsInsertWithout(kids, w, AboveSibling(s));
    AboveIndex(rest, s);
    hide NoDups;
    var i := InsertionIndex(rest, AboveSibling(s));
    InsertedAt(rest, i, w);
    assert s != COW ==> ApplyRestack(kids, w, AboveSibling(s))[i - 1] == s;
  }

  lemma AboveIndex(rest: seq<WindowId>, s: WindowId)
    requires s in rest
    ensures var i := InsertionIndex(rest, AboveSibling(s));
            && (s != COW ==> i > 0 && rest[i - 1] == s)
            && (s == COW ==> i == if rest[|rest| - 1] == COW then |rest| - 1 else |rest|)
  {
  }

  lemma InsertedAt(rest: seq<WindowId>, i: nat, w: WindowId)
    requires i <= |rest|
    ensures var s := InsertAt(rest, i, w);
            && |s| == |rest| + 1 && s[i] == w
            && (i > 0 ==> s[i - 1] == rest[i - 1])
            && (i < |rest| ==> s[i + 1] == rest[i])
  {
  }

  /** Immediately below `s`. */
  lemma LandsBelow(kids: seq<WindowId>, w: WindowId, s: WindowId)
    requires NoDups(kids) && w in kids && s in kids && s != w
    ensures var after := ApplyRestack(kids, w, BelowSibling(s));
            exists i :: 0 <= i < |after| - 1 && after[i] == w && after[i + 1] == s
  {
    var rest := RemoveAt(kids, Position(kids, w).value);
    var after := ApplyRestack(kids, w, BelowSibling(s));
    RestRemoved(kids, w);
    assert s in rest;
    var i := Position(rest, s).value;
    assert after == InsertAt(rest, i, w);
    assert after[i] == w && after[i + 1] == s;
  }

  // ----- The request on a tree -----

  lemma RestackKeepsTree(t: Table, w: WindowId, sibling: Option<WindowId>, mode: Option<int>)
    requires WellFormed(t)
    ensures var u := RestackWindow(t, w, sibling, mode);
            && WellFormed(u) && SameParents(t, u)
            && (forall v :: v in t ==> u[v] == t[v].(children := u[v].children))
            && (w in t ==> t[w].parent in t && MovesOnly(t[t[w].parent].children, u[t[w].parent].children, w))
            && (forall v :: v in t && (w !in t || v != t[w].parent) ==> u[v] == t[v])
  {
    var u := RestackWindow(t, w, sibling, mode);
    hide ApplyRestack, ResolveRestack;
    if w in t {
      var p := t[w].parent;
      assert WindowOk(t, w) && WindowOk(t, p);
      assert NoDups(t[p].children);
      hide WindowOk, Reaches;
      if mode.Some? && ResolveRestack(t, t[p].children, w, sibling, mode.value).Some? {
        ResolvedIsChild(t, t[p].children, w, sibling, mode.value);
        ApplyRestackMovesOnly(t[p].children, w, ResolveRestack(t, t[p].children, w, sibling, mode.value).value);
        assert NoDups(u[p].children);
        hide MovesOnly, NoDups;
        ReorderKeepsTree(t, p, u[p].children);
      }
    }
  }

  /** Any reordering of one child list keeps the tree. */
  lemma ReorderKeepsTree(t: Table, p: WindowId, kids: seq<WindowId>)
    requires WellFormed(t) && p in t && NoDups(kids) && forall c :: c in kids <==> c in t[p].children
    ensures WellFormed(t[p := t[p].(children := kids)])
  {
    hide WindowOk, NoDups, Reaches;
    var u := t[p := t[p].(children := kids)];
    forall v | v in u ensures WindowOk(u, v) {
      assert WindowOk(t, v);
      ReorderWindowOk(t, p, kids, v);
    }
    SameParentsWellFormed(t, u);
  }

  lemma ReorderWindowOk(t: Table, p: WindowId, kids: seq<WindowId>, v: WindowId)
    requires p in t && v in t && WindowOk(t, v) && NoDups(kids) && forall c :: c in kids <==> c in t[p].children
    ensures WindowOk(t[p := t[p].(children := kids)], v)
  {
  }

  /** No considered mapped sibling above `w` meets it, the pinned overlay window excepted. */
  ghost predicate ClearAbove(t: Table, kids: seq<WindowId>, w: WindowId, sibling: Option<WindowId>) {
    forall i, j :: 0 <= i < j < |kids| && kids[i] == w && Considered(sibling, kids[j]) && Meets(t, w, kids[j]) ==>
      kids[j] == COW
  }

  /** `w` meets no considered mapped sibling below it. */
  ghost predicate ClearBelow(t: Table, kids: seq<WindowId>, w: WindowId, sibling: Option<WindowId>) {
    forall i, j :: 0 <= j < i < |kids| && kids[i] == w && Considered(sibling, kids[j]) ==> !Meets(t, w, kids[j])
  }

  lemma TopIfList(t: Table, kids: seq<WindowId>, w: WindowId, sibling: Option<WindowId>)
    requires NoDups(kids) && w in kids
    ensures var action := if OccludedAt(t, kids, Position(kids, w).value, sibling) then Top else NoOp;
            ClearAbove(t, ApplyRestack(kids, w, action), w, sibling)
  {
    var k := Position(kids, w).value;
    if OccludedAt(t, kids, k, sibling) {
      RestRemoved(kids, w);
      TopHasOnlyCowAbove(RemoveAt(kids, k), w);
    }
  }

  lemma TopHasOnlyCowAbove(rest: seq<WindowId>, w: WindowId)
    requires w !in rest && NoDups(rest)
    ensures var kids := InsertTop(rest, w);
            forall i, j :: 0 <= i < j < |kids| && kids[i] == w ==> kids[j] == COW
  {
    var k := CowAwareTop(rest);
    var kids := InsertTop(rest, w);
    InsertNoDups(rest, k, w);
    assert kids[k] == w && forall j :: k < j < |kids| ==> kids[j] == rest[j - 1];
  }

  lemma BottomIfList(t: Table, kids: seq<WindowId>, w: WindowId, sibling: Option<WindowId>)
    requires NoDups(kids) && w in kids
    ensures var action := if OccludesAt(t, kids, Position(kids, w).value, sibling) then Bottom else NoOp;
            ClearBelow(t, ApplyRestack(kids, w, action), w, sibling)
  {
    var k := Position(kids, w).value;
    if OccludesAt(t, kids, k, sibling) {
      var rest := RemoveAt(kids, k);
      RestRemoved(kids, w);
      InsertNoDups(rest, 0, w);
      assert InsertAt(rest, 0, w)[0] == w;
    }
  }

  lemma Restacked(t: Table, w: WindowId, sibling: Option<WindowId>, mode: int)
    requires w in t && t[w].parent in t && w in t[t[w].parent].children
    ensures var p := t[w].parent;
            var action := ResolveRestack(t, t[p].children, w, sibling, mode);
            RestackWindow(t, w, sibling, Some(mode))
            == if action.None? then t
               else t[p := t[p].(children := ApplyRestack(t[p].children, w, action.value))]
  {
    hide ApplyRestack, ResolveRestack;
  }

  lemma MeetsUnmoved(t: Table, p: WindowId, kids: seq<WindowId>, a: WindowId, b: WindowId)
    requires p in t
    ensures Meets(t[p := t[p].(children := kids)], a, b) == Meets(t, a, b)
  {
  }

  predicate NoStranger(kids: seq<WindowId>, sibling: Option<WindowId>) {
    sibling.Some? ==> sibling.value in kids
  }

  /** Naming a window that is no sibling considers nothing and moves nothing. */
  lemma StrangerChangesNothing(t: Table, kids: seq<WindowId>, w: WindowId, sibling: Option<WindowId>, mode: int)
    requires w in kids && !NoStranger(kids, sibling)
    ensures ResolveRestack(t, kids, w, sibling, mode).None?
    ensures var k := Position(kids, w).value; !OccludedAt(t, kids, k, sibling) && !OccludesAt(t, kids, k, sibling)
    ensures ClearAbove(t, kids, w, sibling) && ClearBelow(t, kids, w, sibling)
  {
  }

  /** Looking for occluders gives the same answer whichever child list the table holds. */
  lemma ClearUnmoved(t: Table, p: WindowId, list: seq<WindowId>, kids: seq<WindowId>, w: WindowId,
                     sibling: Option<WindowId>)
    requires p in t
    ensures var u := t[p := t[p].(children := list)];
            && ClearAbove(u, kids, w, sibling) == ClearAbove(t, kids, w, sibling)
            && ClearBelow(u, kids, w, sibling) == ClearBelow(t, kids, w, sibling)
  {
    hide Meets;
    forall a, b { MeetsUnmoved(t, p, list, a, b); }
  }

  /** TopIf leaves nothing that it considers and that meets the window above it, but for the overlay window. */
  lemma TopIfClearsAbove(t: Table, w: WindowId, sibling: Option<WindowId>)
    requires WellFormed(t) && w in t && w != ROOT
    ensures var u := RestackWindow(t, w, sibling, Some(2));
            t[w].parent in u && ClearAbove(u, u[t[w].parent].children, w, sibling)
  {
    var p := t[w].parent;
    assert WindowOk(t, w) && WindowOk(t, p);
    var before := t[p].children;
    hide ClearAbove, ClearBelow, OccludedAt, OccludesAt, ApplyRestack, ResolveRestack, RestackWindow, Position, NoDups,
         WindowOk, WellFormed;
    Restacked(t, w, sibling, 2);
    if NoStranger(before, sibling) {
      ConditionalAction(t, before, w, sibling);
      TopIfList(t, before, w, sibling);
      var after := ApplyRestack(before, w, ResolveRestack(t, before, w, sibling, 2).value);
      ClearUnmoved(t, p, after, after, w, sibling);
    } else {
      StrangerChangesNothing(t, before, w, sibling, 2);
    }
  }

  /** BottomIf leaves nothing that it considers and that meets the window below it. */
  lemma BottomIfClearsBelow(t: Table, w: WindowId, sibling: Option<WindowId>)
    requires WellFormed(t) && w in t && w != ROOT
    ensures var u := RestackWindow(t, w, sibling, Some(3));
            t[w].parent in u && ClearBelow(u, u[t[w].parent].children, w, sibling)
  {
    var p := t[w].parent;
    assert WindowOk(t, w) && WindowOk(t, p);
    var before := t[p].children;
    hide ClearAbove, ClearBelow, OccludedAt, OccludesAt, ApplyRestack, ResolveRestack, RestackWindow, Position, NoDups,
         WindowOk, WellFormed;
    Restacked(t, w, sibling, 3);
    if NoStranger(before, sibling) {
      ConditionalAction(t, before, w, sibling);
      BottomIfList(t, before, w, sibling);
      var after := ApplyRestack(before, w, ResolveRestack(t, before, w, sibling, 3).value);
      ClearUnmoved(t, p, after, after, w, sibling);
    } else {
      StrangerChangesNothing(t, before, w, sibling, 3);
    }
  }

  lemma ConditionalAction(t: Table, kids: seq<WindowId>, w: WindowId, sibling: Option<WindowId>)
    requires w in kids && NoStranger(kids, sibling)
    ensures var k := Position(kids, w).value;
            && ResolveRestack(t, kids, w, sibling, 2) == Some(if OccludedAt(t, kids, k, sibling) then Top else NoOp)
            && ResolveRestack(t, kids, w, sibling, 3) == Some(if OccludesAt(t, kids, k, sibling) then Bottom else NoOp)
  {
    hide OccludedAt, OccludesAt, Position;
  }

  lemma OppositeAction(t: Table, kids: seq<WindowId>, w: WindowId, sibling: Option<WindowId>)
    requires w in kids && NoStranger(kids, sibling)
    ensures var k := Position(kids, w).value;
            ResolveRestack(t, kids, w, sibling, 4)
            == Some(if OccludedAt(t, kids, k, sibling) then Top else if OccludesAt(t, kids, k, sibling) then Bottom else NoOp)
    ensures ApplyRestack(kids, w, NoOp) == kids
  {
    hide OccludedAt, OccludesAt, Position, ApplyRestack;
    NoOpStays(kids, w);
  }

  lemma OppositeList(t: Table, kids: seq<WindowId>, w: WindowId, sibling: Option<WindowId>)
    requires NoDups(kids) && w in kids && NoStranger(kids, sibling)
    ensures var k := Position(kids, w).value;
            var after := ApplyRestack(kids, w, ResolveRestack(t, kids, w, sibling, 4).value);
            && (OccludedAt(t, kids, k, sibling) ==> ClearAbove(t, after, w, sibling))
            && (!OccludedAt(t, kids, k, sibling) ==> ClearBelow(t, after, w, sibling))
            && (!OccludedAt(t, kids, k, sibling) && !OccludesAt(t, kids, k, sibling) ==>
                  after == kids && ClearAbove(t, after, w, sibling))
  {
    hide ClearAbove, ClearBelow, OccludedAt, OccludesAt, ResolveRestack, ApplyRestack, Position, NoDups;
    OppositeAction(t, kids, w, sibling);
    TopIfList(t, kids, w, sibling);
    BottomIfList(t, kids, w, sibling);
  }

  /** Opposite: a window occluded by what it considers comes out clear above, but for the overlay window; one
      that only occludes comes out clear below; any other stays, and is clear both ways. */
  lemma OppositeClears(t: Table, w: WindowId, sibling: Option<WindowId>)
    requires WellFormed(t) && w in t && w != ROOT
    ensures t[w].parent in t && Position(t[t[w].parent].children, w).Some?
    ensures var u, p := RestackWindow(t, w, sibling, Some(4)), t[w].parent;
            var before, k := t[p].children, Position(t[p].children, w).value;
            && p in u
            && (OccludedAt(t, before, k, sibling) ==> ClearAbove(u, u[p].children, w, sibling))
            && (!OccludedAt(t, before, k, sibling) ==> ClearBelow(u, u[p].children, w, sibling))
            && (!OccludedAt(t, before, k, sibling) && !OccludesAt(t, before, k, sibling) ==>
                  u == t && ClearAbove(u, u[p].children, w, sibling))
  {
    var p := t[w].parent;
    assert WindowOk(t, w) && WindowOk(t, p);
    var before := t[p].children;
    hide ClearAbove, ClearBelow, OccludedAt, OccludesAt, ApplyRestack, ResolveRestack, RestackWindow, Position, NoDups,
         WindowOk, WellFormed;
    Restacked(t, w, sibling, 4);
    if NoStranger(before, sibling) {
      OppositeAction(t, before, w, sibling);
      OppositeList(t, before, w, sibling);
      var after := ApplyRestack(before, w, ResolveRestack(t, before, w, sibling, 4).value);
      ClearUnmoved(t, p, after, after, w, sibling);
    } else {
      StrangerChangesNothing(t, before, w, sibling, 4);
    }
  }

  /** No considered sibling above `w` meets it, the overlay window included. */
  ghost predicate NothingAbove(t: Table, kids: seq<WindowId>, w: WindowId, sibling: Option<WindowId>) {
    forall i, j :: 0 <= i < j < |kids| && kids[i] == w && Considered(sibling, kids[j]) ==> !Meets(t, w, kids[j])
  }

  lemma OcclusionIff(t: Table, kids: seq<WindowId>, w: WindowId, sibling: Option<WindowId>)
    requires NoDups(kids) && w in kids
    ensures var k := Position(kids, w).value;
            && (OccludedAt(t, kids, k, sibling) <==> !NothingAbove(t, kids, w, sibling))
            && (OccludesAt(t, kids, k, sibling) <==> !ClearBelow(t, kids, w, sibling))
  {
    hide Meets, Considered;
    var k := Position(kids, w).value;
    assert kids[k] == w && forall i :: 0 <= i < |kids| && kids[i] == w ==> i == k;
  }

  lemma IdleAction(t: Table, kids: seq<WindowId>, w: WindowId, sibling: Option<WindowId>, mode: int)
    requires NoDups(kids) && w in kids
    requires mode == 2 ==> NothingAbove(t, kids, w, sibling)
    requires mode == 3 ==> ClearBelow(t, kids, w, sibling)
    requires mode == 4 ==> NothingAbove(t, kids, w, sibling) && ClearBelow(t, kids, w, sibling)
    requires 2 <= mode <= 4
    ensures var action := ResolveRestack(t, kids, w, sibling, mode);
            action.None? || (action == Some(NoOp) && ApplyRestack(kids, w, NoOp) == kids)
  {
    hide OccludedAt, OccludesAt, NothingAbove, ClearBelow, NoDups, ApplyRestack;
    NoOpStays(kids, w);
    if NoStranger(kids, sibling) {
      OcclusionIff(t, kids, w, sibling);
      ConditionalAction(t, kids, w, sibling);
      OppositeAction(t, kids, w, sibling);
    } else {
      StrangerChangesNothing(t, kids, w, sibling, mode);
    }
  }

  /** TopIf moves no window that nothing considered meets from above; BottomIf none that meets nothing considered
      below; Opposite none of which both are true. */
  lemma IdleRestack(t: Table, w: WindowId, sibling: Option<WindowId>, mode: int)
    requires WellFormed(t) && w in t && w != ROOT && t[w].parent in t && 2 <= mode <= 4
    requires var kids := t[t[w].parent].children;
             && (mode == 2 ==> NothingAbove(t, kids, w, sibling))
             && (mode == 3 ==> ClearBelow(t, kids, w, sibling))
             && (mode == 4 ==> NothingAbove(t, kids, w, sibling) && ClearBelow(t, kids, w, sibling))
    ensures RestackWindow(t, w, sibling, Some(mode)) == t
  {
    var p := t[w].parent;
    assert WindowOk(t, w) && WindowOk(t, p);
    hide WellFormed, NoDups, NothingAbove, ClearBelow, ResolveRestack, ApplyRestack, RestackWindow, WindowOk;
    Restacked(t, w, sibling, mode);
    IdleAction(t, t[p].children, w, sibling, mode);
    assert t[p := t[p].(children := t[p].children)] == t;
  }

  /** Opposite by what can be seen: a window met from above by something considered comes to the top, one that only
      meets something considered below goes to the bottom. */
  lemma OppositeMoves(t: Table, w: WindowId, sibling: Option<WindowId>)
    requires WellFormed(t) && w in t && w != ROOT && t[w].parent in t
    ensures var before, after := t[t[w].parent].children, RestackedList(t, w, sibling, 4);
            && (!NothingAbove(t, before, w, sibling) ==> OnTop(after, w))
            && (NothingAbove(t, before, w, sibling) && !ClearBelow(t, before, w, sibling) ==> after != [] && after[0] == w)
  {
    RestackedListIs(t, w, sibling, 4);
    var kids := t[t[w].parent].children;
    hide WellFormed, NothingAbove, ClearBelow, ResolveRestack, RestackWindow, RestackedList, OnTop, OccludedAt, OccludesAt;
    OcclusionIff(t, kids, w, sibling);
    hide NoDups;
    if NoStranger(kids, sibling) {
      OppositeAction(t, kids, w, sibling);
      RaisedIsOnTop(kids, w);
    } else {
      StrangerChangesNothing(t, kids, w, sibling, 4);
    }
  }

  lemma TopIfMoves(t: Table, w: WindowId, sibling: Option<WindowId>)
    requires WellFormed(t) && w in t && w != ROOT && t[w].parent in t
    requires !NothingAbove(t, t[t[w].parent].children, w, sibling)
    ensures OnTop(RestackedList(t, w, sibling, 2), w)
  {
    var kids := t[t[w].parent].children;
    hide *;
    RestackedListIs(t, w, sibling, 2);
    OcclusionIff(t, kids, w, sibling);
    if NoStranger(kids, sibling) {
      ConditionalAction(t, kids, w, sibling);
      RaisedIsOnTop(kids, w);
    } else {
      StrangerChangesNothing(t, kids, w, sibling, 2);
    }
  }

  lemma BottomIfMoves(t: Table, w: WindowId, sibling: Option<WindowId>)
    requires WellFormed(t) && w in t && w != ROOT && t[w].parent in t
    requires !ClearBelow(t, t[t[w].parent].children, w, sibling)
    ensures RestackedList(t, w, sibling, 3) != [] && RestackedList(t, w, sibling, 3)[0] == w
  {
    var kids := t[t[w].parent].children;
    hide *;
    RestackedListIs(t, w, sibling, 3);
    OcclusionIff(t, kids, w, sibling);
    if NoStranger(kids, sibling) {
      ConditionalAction(t, kids, w, sibling);
      RaisedIsOnTop(kids, w);
    } else {
      StrangerChangesNothing(t, kids, w, sibling, 3);
    }
  }

  /** A window that TopIf moves comes to the top, one that BottomIf moves to the bottom. */
  lemma ConditionalMoves(t: Table, w: WindowId, sibling: Option<WindowId>)
    requires WellFormed(t) && w in t && w != ROOT && t[w].parent in t
    ensures var before := t[t[w].parent].children;
            && (!NothingAbove(t, before, w, sibling) ==> OnTop(RestackedList(t, w, sibling, 2), w))
            && (!ClearBelow(t, before, w, sibling) ==>
                  RestackedList(t, w, sibling, 3) != [] && RestackedList(t, w, sibling, 3)[0] == w)
  {
    hide *;
    if !NothingAbove(t, t[t[w].parent].children, w, sibling) { TopIfMoves(t, w, sibling); }
    if !ClearBelow(t, t[t[w].parent].children, w, sibling) { BottomIfMoves(t, w, sibling); }
  }

  // ----- Above and Below on the table -----

  /** Nothing lies above `w`, the pinned overlay window excepted. */
  ghost predicate OnTop(kids: seq<WindowId>, w: WindowId) {
    w in kids && forall i, j :: 0 <= i < j < |kids| && kids[i] == w ==> kids[j] == COW
  }

  /** `s` comes immediately below `w`. */
  ghost predicate RightAbove(kids: seq<WindowId>, w: WindowId, s: WindowId) {
    exists i :: 0 <= i < |kids| - 1 && kids[i] == s && kids[i + 1] == w
  }

  /** What the child list of the parent is after the request. */
  function RestackedList(t: Table, w: WindowId, sibling: Option<WindowId>, mode: int): seq<WindowId> {
    var u := RestackWindow(t, w, sibling, Some(mode));
    if w in u && u[w].parent in u then u[u[w].parent].children else []
  }

  lemma RestackedListIs(t: Table, w: WindowId, sibling: Option<WindowId>, mode: int)
    requires WellFormed(t) && w in t && w != ROOT
    ensures t[w].parent in t
    ensures var kids := t[t[w].parent].children; var action := ResolveRestack(t, kids, w, sibling, mode);
            && NoDups(kids) && w in kids
            && (action.None? ==> RestackWindow(t, w, sibling, Some(mode)) == t)
            && RestackedList(t, w, sibling, mode) == if action.None? then kids else ApplyRestack(kids, w, action.value)
  {
    assert WindowOk(t, w) && WindowOk(t, t[w].parent);
    hide WellFormed, NoDups, ResolveRestack, ApplyRestack, RestackWindow;
    Restacked(t, w, sibling, mode);
  }

  lemma ResolvesAbove(t: Table, kids: seq<WindowId>, w: WindowId, sibling: Option<WindowId>)
    requires w in kids
    ensures ResolveRestack(t, kids, w, sibling, 0)
         == if !NoStranger(kids, sibling) then None
            else Some(if sibling.Some? then AboveSibling(sibling.value) else Top)
    ensures ResolveRestack(t, kids, w, sibling, 1)
         == if !NoStranger(kids, sibling) then None
            else Some(if sibling.Some? then BelowSibling(sibling.value) else Bottom)
  {
  }

  lemma RaisedIsOnTop(kids: seq<WindowId>, w: WindowId)
    requires NoDups(kids) && w in kids
    ensures OnTop(ApplyRestack(kids, w, Top), w)
    ensures ApplyRestack(kids, w, Bottom)[0] == w
  {
    var k := Position(kids, w).value;
    var rest := RemoveAt(kids, k);
    RestRemoved(kids, w);
    TopHasOnlyCowAbove(rest, w);
    var i := CowAwareTop(rest);
    assert InsertAt(rest, i, w)[i] == w;
  }

  lemma LastOnTop(after: seq<WindowId>, w: WindowId)
    requires NoDups(after) && after != []
    ensures after[|after| - 1] == w ==> OnTop(after, w)
    ensures |after| >= 2 && after[|after| - 1] == COW && after[|after| - 2] == w ==>
              OnTop(after, w) && RightAbove(after, COW, w)
  {
    var n := |after|;
    if n >= 2 && after[n - 1] == COW && after[n - 2] == w {
      assert after[n - 2] == w && after[n - 2 + 1] == COW;
    }
  }

  lemma AboveIsAbove(kids: seq<WindowId>, w: WindowId, s: WindowId)
    requires NoDups(kids) && w in kids && s in kids && s != w
    ensures var after, rest := ApplyRestack(kids, w, AboveSibling(s)), Without(kids, w);
            && rest != []
            && (s != COW ==> RightAbove(after, w, s))
            && (s == COW ==> OnTop(after, w) && (rest[|rest| - 1] == COW ==> RightAbove(after, COW, w)))
  {
    hide ApplyRestack, Without, NoDups, OnTop;
    LandsAbove(kids, w, s);
    ApplyRestackMovesOnly(kids, w, AboveSibling(s));
    assert NoDups(ApplyRestack(kids, w, AboveSibling(s)));
    LastOnTop(ApplyRestack(kids, w, AboveSibling(s)), w);
  }

  /** Mode Above brings a window to the top, below the overlay window at most; or immediately above its
      sibling, if it names one. To be above the overlay window is to be on top like any other. */
  lemma AboveRaises(t: Table, w: WindowId, sibling: Option<WindowId>)
    requires WellFormed(t) && w in t && w != ROOT
    ensures t[w].parent in t
    ensures var before, after := t[t[w].parent].children, RestackedList(t, w, sibling, 0);
            && (sibling.None? ==> OnTop(after, w))
            && (sibling.Some? && sibling.value !in before ==> RestackWindow(t, w, sibling, Some(0)) == t)
            && (sibling.Some? && sibling.value in before && sibling.value != w ==>
                  if sibling.value == COW then OnTop(after, w) else RightAbove(after, w, sibling.value))
  {
    RestackedListIs(t, w, sibling, 0);
    var kids := t[t[w].parent].children;
    hide WellFormed, NoDups, ResolveRestack, ApplyRestack, RestackWindow, RestackedList, OnTop, RightAbove;
    ResolvesAbove(t, kids, w, sibling);
    if sibling.None? {
      RaisedIsOnTop(kids, w);
    } else if sibling.value in kids && sibling.value != w {
      AboveIsAbove(kids, w, sibling.value);
    }
  }

  /** Mode Below puts a window first, or immediately below its sibling. */
  lemma BelowLowers(t: Table, w: WindowId, sibling: Option<WindowId>)
    requires WellFormed(t) && w in t && w != ROOT
    ensures t[w].parent in t
    ensures var before, after := t[t[w].parent].children, RestackedList(t, w, sibling, 1);
            && (sibling.None? ==> after != [] && after[0] == w)
            && (sibling.Some? && sibling.value !in before ==> RestackWindow(t, w, sibling, Some(1)) == t)
            && (sibling.Some? && sibling.value in before && sibling.value != w ==> RightAbove(after, sibling.value, w))
  {
    RestackedListIs(t, w, sibling, 1);
    var kids := t[t[w].parent].children;
    hide WellFormed, NoDups, ResolveRestack, RestackWindow, RestackedList;
    ResolvesAbove(t, kids, w, sibling);
    if sibling.None? {
      RaisedIsOnTop(kids, w);
    } else if sibling.value in kids && sibling.value != w {
      LandsBelow(kids, w, sibling.value);
    }
  }

  /** Beside itself a window goes to the top or to the bottom, past the overlay window if need be. */
  lemma BesideItself(t: Table, w: WindowId)
    requires WellFormed(t) && w in t && w != ROOT
    ensures var after := RestackedList(t, w, Some(w), 0);
            after != [] && (w != COW ==> after[|after| - 1] == w)
    ensures RestackedList(t, w, Some(w), 1) != [] && RestackedList(t, w, Some(w), 1)[0] == w
  {
    RestackedListIs(t, w, Some(w), 0);
    RestackedListIs(t, w, Some(w), 1);
    var kids := t[t[w].parent].children;
    hide WellFormed, ResolveRestack, RestackWindow, RestackedList;
    ResolvesAbove(t, kids, w, Some(w));
    RestRemoved(kids, w);
  }

  /** A stack mode that is none of the five, or none at all, changes nothing. */
  lemma UnknownModeChangesNothing(t: Table, w: WindowId, sibling: Option<WindowId>, mode: Option<int>)
    requires mode.Some? ==> !(0 <= mode.value <= 4)
    ensures RestackWindow(t, w, sibling, mode) == t
  {
    hide OccludedAt, OccludesAt, Position;
  }

  /** A new window lies above all its siblings, the overlay window excepted; it has the geometry asked for, no
      children, and is unmapped. Its siblings keep their order, and no other record changes. */
  lemma CreatedOnTop(t: Table, q: CreateRequest)
    requires WellFormed(t) && q.window !in t && q.parent in t
    ensures var u := CreateWindow(t, q);
            && q.window in u && q.parent in u && u.Keys == t.Keys + {q.window}
            && u[q.window] == Window(q.parent, [], q.x, q.y, q.width, q.height, q.borderWidth, Unmapped)
            && OnTop(u[q.parent].children, q.window)
            && Without(u[q.parent].children, q.window) == t[q.parent].children
            && u[q.parent] == t[q.parent].(children := u[q.parent].children)
            && forall v :: v in t && v != q.parent ==> u[v] == t[v]
  {
    assert WindowOk(t, q.parent);
    assert q.window !in t[q.parent].children;
    hide Without, WindowOk, OnTop, InsertTop;
    InsertedOnTop(t[q.parent].children, q.window);
  }

  // ----- CirculateWindow -----

  function CirculateTop(kids: seq<WindowId>, container: WindowId): (i: nat)
    ensures i <= |kids|
  {
    if container == ROOT then CowAwareTop(kids) else |kids|
  }

  function LastToFront(kids: seq<WindowId>, top: nat): seq<WindowId>
    requires 1 <= top <= |kids|
  {
    InsertAt(RemoveAt(kids, top - 1), 0, kids[top - 1])
  }

  function FirstToBack(kids: seq<WindowId>, top: nat): seq<WindowId>
    requires 1 <= top <= |kids|
  {
    InsertAt(RemoveAt(kids, 0), top - 1, kids[0])
  }

  function CirculateWindow(t: Table, container: WindowId, direction: int): (Table, Option<WindowId>) {
    if container !in t then (t, None)
    else
      var kids := t[container].children;
      var top := CirculateTop(kids, container);
      if top < 2 || (direction != 0 && direction != 1) then (t, None)
      else if direction == 0 then
        (t[container := t[container].(children := LastToFront(kids, top))], Some(kids[top - 1]))
      else
        (t[container := t[container].(children := FirstToBack(kids, top))], Some(kids[0]))
  }

  lemma CirculateKeepsTree(t: Table, container: WindowId, direction: int)
    requires WellFormed(t)
    ensures var (u, moved) := CirculateWindow(t, container, direction);
            && WellFormed(u) && SameParents(t, u)
            && (forall v :: v in t && v != container ==> u[v] == t[v])
            && (container in t ==> u[container] == t[container].(children := u[container].children))
            && (moved.Some? ==> container in t && moved.value in t[container].children
                                && MovesOnly(t[container].children, u[container].children, moved.value))
            && (moved.None? ==> u == t)
  {
    var (u, moved) := CirculateWindow(t, container, direction);
    if moved.Some? {
      assert WindowOk(t, container);
      var kids := CirculateRotates(t, container, direction);
      hide CirculateWindow, MovesOnly, WellFormed, NoDups;
      RotatedTree(t, container, moved.value, kids);
    }
  }

  lemma CirculateRotates(t: Table, container: WindowId, direction: int) returns (kids: seq<WindowId>)
    requires container in t && NoDups(t[container].children) && CirculateWindow(t, container, direction).1.Some?
    ensures var (u, moved) := CirculateWindow(t, container, direction);
            && u == t[container := t[container].(children := kids)]
            && MovesOnly(t[container].children, kids, moved.value)
            && moved.value in t[container].children
            && forall c :: c in kids <==> c in t[container].children
  {
    hide LastToFront, FirstToBack, MovesOnly, NoDups;
    var before := t[container].children;
    var top := CirculateTop(before, container);
    RotationsMove(before, top);
    kids := if direction == 0 then LastToFront(before, top) else FirstToBack(before, top);
  }

  lemma RotationsMove(kids: seq<WindowId>, top: nat)
    requires NoDups(kids) && 1 <= top <= |kids|
    ensures MovesOnly(kids, LastToFront(kids, top), kids[top - 1])
    ensures MovesOnly(kids, FirstToBack(kids, top), kids[0])
    ensures forall c :: c in LastToFront(kids, top) <==> c in kids
    ensures forall c :: c in FirstToBack(kids, top) <==> c in kids
  {
    RotatedOne(kids, top - 1, 0);
    RotatedOne(kids, 0, top - 1);
  }

  lemma RotatedTree(t: Table, container: WindowId, w: WindowId, kids: seq<WindowId>)
    requires WellFormed(t) && container in t && MovesOnly(t[container].children, kids, w)
    requires forall c :: c in kids <==> c in t[container].children
    ensures var u := t[container := t[container].(children := kids)];
            WellFormed(u) && SameParents(t, u) && (forall v :: v in t && v != container ==> u[v] == t[v])
  {
    ReorderKeepsTree(t, container, kids);
  }

  lemma RotatedOne(kids: seq<WindowId>, k: nat, i: nat)
    requires NoDups(kids) && k < |kids| && i < |kids|
    ensures MovesOnly(kids, InsertAt(RemoveAt(kids, k), i, kids[k]), kids[k])
    ensures forall c :: c in InsertAt(RemoveAt(kids, k), i, kids[k]) <==> c in kids
  {
    var rest := RemoveAt(kids, k);
    WithoutIsRemoveAt(kids, k);
    WithoutNoDups(kids, kids[k]);
    RemovedMultiset(kids, k);
    InsertedOthers(rest, i, kids[k]);
    InsertNoDups(rest, i, kids[k]);
    InsertedMultiset(rest, i, kids[k]);
  }

  lemma RotationsInverse(kids: seq<WindowId>, top: nat)
    requires 1 <= top <= |kids|
    ensures FirstToBack(LastToFront(kids, top), top) == kids
    ensures LastToFront(FirstToBack(kids, top), top) == kids
  {
    PutBack(kids, top - 1, 0);
    PutBack(kids, 0, top - 1);
  }

  /** Taking an entry out, putting it in elsewhere, taking it out there and putting it back. */
  lemma PutBack(s: seq<WindowId>, k: nat, i: nat)
    requires k < |s| && i < |s|
    ensures var moved := InsertAt(RemoveAt(s, k), i, s[k]);
            |moved| == |s| && moved[i] == s[k] && InsertAt(RemoveAt(moved, i), k, moved[i]) == s
  {
    var rest := RemoveAt(s, k);
    var moved := InsertAt(rest, i, s[k]);
    assert RemoveAt(moved, i) == rest;
    assert rest[..k] == s[..k] && rest[k..] == s[k + 1..];
  }

  lemma RotationEnds(kids: seq<WindowId>, top: nat)
    requires 2 <= top <= |kids|
    ensures var n := |kids|;
            && |LastToFront(kids, top)| == |FirstToBack(kids, top)| == n
            && LastToFront(kids, top)[n - 1] == (if top == n then kids[n - 2] else kids[n - 1])
            && FirstToBack(kids, top)[n - 1] == (if top == n then kids[0] else kids[n - 1])
  {
  }

  /** The second rotation uses the same slice as the first, or leaves the overlay window on top. */
  lemma SecondRotation(t: Table, container: WindowId, first: seq<WindowId>, direction: int)
    requires container in t && (direction == 0 || direction == 1) && |t[container].children| >= 2
    requires |first| == |t[container].children| && NoDups(t[container].children)
    requires CirculateTop(t[container].children, container) >= 2
    ensures var kids := t[container].children;
            var top := CirculateTop(kids, container);
            var u := t[container := t[container].(children := first)];
            var last := CirculateWindow(u, container, direction).0[container].children;
            if CirculateTop(first, container) == top
            then CirculateWindow(u, container, direction).0
                   == t[container := t[container].(children := if direction == 0 then LastToFront(first, top) else FirstToBack(first, top))]
            else top == |kids| && first[|first| - 1] == COW ==> last[|last| - 1] == COW
  {
    var top := CirculateTop(first, container);
    if 2 <= top {
      RotationEnds(first, top);
    }
  }

  predicate DownUpDiffer(kids: seq<WindowId>, container: WindowId) {
    container == ROOT && |kids| >= 2 && kids[|kids| - 2] == COW
  }

  predicate UpDownDiffer(kids: seq<WindowId>, container: WindowId) {
    container == ROOT && |kids| >= 2 && kids[0] == COW && kids[|kids| - 1] != COW
  }

  lemma DownThenUp(t: Table, container: WindowId)
    requires container in t && NoDups(t[container].children)
    ensures CirculateWindow(CirculateWindow(t, container, 0).0, container, 1).0 == t
       <==> !DownUpDiffer(t[container].children, container)
  {
    hide LastToFront, FirstToBack;
    var kids := t[container].children;
    var top := CirculateTop(kids, container);
    if top >= 2 {
      RotationsInverse(kids, top);
      RotationEnds(kids, top);
      SecondRotation(t, container, LastToFront(kids, top), 1);
      assert t[container := t[container].(children := kids)] == t;
    }
  }

  lemma UpThenDown(t: Table, container: WindowId)
    requires container in t && NoDups(t[container].children)
    ensures CirculateWindow(CirculateWindow(t, container, 1).0, container, 0).0 == t
       <==> !UpDownDiffer(t[container].children, container)
  {
    hide LastToFront, FirstToBack;
    var kids := t[container].children;
    var top := CirculateTop(kids, container);
    if top >= 2 {
      RotationsInverse(kids, top);
      RotationEnds(kids, top);
      SecondRotation(t, container, FirstToBack(kids, top), 0);
      assert t[container := t[container].(children := kids)] == t;
    }
  }

  /** RaiseLowest and LowerHighest undo each other, except on a root child list in which the first of
      the two brings the overlay window to the top of the stack. */
  lemma CirculateInverseIff(t: Table, container: WindowId)
    requires container in t && NoDups(t[container].children)
    ensures CirculateWindow(CirculateWindow(t, container, 0).0, container, 1).0 == t
       <==> !DownUpDiffer(t[container].children, container)
    ensures CirculateWindow(CirculateWindow(t, container, 1).0, container, 0).0 == t
       <==> !UpDownDiffer(t[container].children, container)
  {
    hide CirculateWindow;
    DownThenUp(t, container);
    UpThenDown(t, container);
  }

  /** How many children take part: all but an overlay window on top of the root's. */
  function Circulating(kids: seq<WindowId>, container: WindowId): nat {
    if container == ROOT && kids != [] && kids[|kids| - 1] == COW then |kids| - 1 else |kids|
  }

  /** Which window goes where, if at least two take part. Direction 0 takes the one on top to the bottom, and
      direction 1 takes the one at the bottom to the top: as child lists go from bottom to top, that is the reverse
      of what the names RaiseLowest and LowerHighest say. */
  lemma CirculateMoves(t: Table, container: WindowId, direction: int)
    requires container in t
    ensures var (u, moved) := CirculateWindow(t, container, direction);
            var before, n := t[container].children, Circulating(t[container].children, container);
            && container in u && |u[container].children| == |before|
            && (moved.Some? <==> n >= 2 && (direction == 0 || direction == 1))
            && (n >= 2 && direction == 0 ==> moved == Some(before[n - 1]) && u[container].children[0] == before[n - 1])
            && (n >= 2 && direction == 1 ==> moved == Some(before[0]) && u[container].children[n - 1] == before[0])
  {
  }

  /** With three windows the difference shows: raising the lowest one is what mode Above does to it, and what
      RaiseLowest does is to lower the highest. */
  lemma RaiseLowestLowers(t: Table, container: WindowId, low: WindowId, mid: WindowId, high: WindowId)
    requires WellFormed(t) && container in t && t[container].children == [low, mid, high]
    requires low != COW && mid != COW && high != COW
    ensures RestackedList(t, low, None, 0) == [mid, high, low]
    ensures CirculateWindow(t, container, 0).1 == Some(high)
    ensures CirculateWindow(t, container, 0).0[container].children == [high, low, mid]
  {
    assert WindowOk(t, container) && low in t[container].children;
    RestackedListIs(t, low, None, 0);
    hide WellFormed, RestackedList, RestackWindow;
    ResolvesAbove(t, [low, mid, high], low, None);
    assert Position([low, mid, high], low) == Some(0);
    assert RemoveAt([low, mid, high], 0) == [mid, high];
    assert InsertTop([mid, high], low) == [mid, high, low];
    assert RemoveAt([low, mid, high], 2) == [low, mid];
  }

  /** A reparented window lies above all its new siblings, the overlay window excepted, which keep their order, and
      it is where it was asked to be. */
  lemma ReparentedOnTop(t: Table, w: WindowId, p: WindowId, x: Int16, y: Int16)
    requires WellFormed(t) && ReparentWindow(t, w, p, x, y).1.Ok?
    ensures w in t && p in t
    ensures var u := ReparentWindow(t, w, p, x, y).0;
            && w in u && p in u && u[w].parent == p && u[w].x == x && u[w].y == y
            && OnTop(u[p].children, w) && Without(u[p].children, w) == Without(t[p].children, w)
  {
    ReparentRecords(t, w, p, x, y);
    assert WindowOk(t, p);
    var rest := Without(t[p].children, w);
    WithoutNoDups(t[p].children, w);
    WithoutGone(t[p].children, w);
    hide WellFormed, ReparentWindow, Without;
    InsertedOnTop(rest, w);
  }

  lemma InsertedOnTop(rest: seq<WindowId>, w: WindowId)
    requires w !in rest && NoDups(rest)
    ensures OnTop(InsertTop(rest, w), w) && Without(InsertTop(rest, w), w) == rest
  {
    TopHasOnlyCowAbove(rest, w);
    InsertedOthers(rest, CowAwareTop(rest), w);
    hide Without;
    assert InsertTop(rest, w)[CowAwareTop(rest)] == w;
  }

  lemma {:induction false} WithoutGone(s: seq<WindowId>, w: WindowId)
    ensures w !in Without(s, w)
  {
    if s == [] {
    } else {
      WithoutGone(s[1..], w);
    }
  }

  /** A new overlay window covers the root, is shown and has no children; only the root's child list changes. */
  lemma MaterializedRecord(t: Table)
    requires WellFormed(t) && COW !in t
    ensures var u := MaterializeCow(t);
            && COW in u && u[COW] == Window(ROOT, [], 0, 0, t[ROOT].width, t[ROOT].height, 0, Viewable)
            && u[ROOT] == t[ROOT].(children := t[ROOT].children + [COW])
            && forall v :: v in t && v != ROOT ==> v in u && u[v] == t[v]
  {
    MaterializeKeepsTree(t);
  }

  // ----- The overlay window stays on top -----

  /** The overlay window, if there is one, is the topmost child of the root. */
  ghost predicate CowOnTop(t: Table) {
    COW in t ==> ROOT in t && t[ROOT].children != [] && t[ROOT].children[|t[ROOT].children| - 1] == COW
  }

  lemma CreateKeepsCow(t: Table, q: CreateRequest)
    requires WellFormed(t) && CowOnTop(t) && q.window !in t && q.parent in t && q.window != COW
    ensures CowOnTop(CreateWindow(t, q))
  {
  }

  lemma MaterializePinsCow(t: Table)
    requires WellFormed(t) && COW !in t
    ensures CowOnTop(MaterializeCow(t)) && CowOnTop(DestroyCow(MaterializeCow(t)))
  {
    MaterializeKeepsTree(t);
  }

  lemma {:induction false} WithoutKeepsLast(s: seq<WindowId>, w: WindowId)
    requires s != [] && s[|s| - 1] != w
    ensures Without(s, w) != [] && Without(s, w)[|Without(s, w)| - 1] == s[|s| - 1]
  {
    if |s| <= 1 {
    } else {
      WithoutKeepsLast(s[1..], w);
    }
  }

  lemma MovedRootList(t: Table, w: WindowId, p: WindowId, x: Int16, y: Int16)
    requires w in t && p in t && ROOT in t && t[w].parent in t && w != ROOT && COW in t && w != COW
    ensures var u := MoveUnder(t, w, p, x, y);
            var cut := if t[w].parent == ROOT then Without(t[ROOT].children, w) else t[ROOT].children;
            COW in u && ROOT in u && u[ROOT].children == if p == ROOT then InsertTop(cut, w) else cut
  {
    hide Without, InsertTop;
  }

  lemma InsertedBelowCow(rest: seq<WindowId>, w: WindowId)
    requires rest != [] && rest[|rest| - 1] == COW
    ensures var s := InsertTop(rest, w); s != [] && s[|s| - 1] == COW
  {
  }

  lemma ParentInTree(t: Table, w: WindowId)
    requires WellFormed(t) && w in t
    ensures ROOT in t && t[w].parent in t
  {
    assert WindowOk(t, w);
  }

  lemma ReparentKeepsCow(t: Table, w: WindowId, p: WindowId, x: Int16, y: Int16)
    requires WellFormed(t) && CowOnTop(t) && w != COW
    ensures CowOnTop(ReparentWindow(t, w, p, x, y).0)
  {
    hide DescendsFrom, WellFormed, Without, InsertTop, MoveUnder;
    if w != ROOT && w in t && p in t && COW in t {
      ParentInTree(t, w);
      WithoutKeepsLast(t[ROOT].children, w);
      var cut := if t[w].parent == ROOT then Without(t[ROOT].children, w) else t[ROOT].children;
      InsertedBelowCow(cut, w);
      MovedRootList(t, w, p, x, y);
    } else if w in t && p in t && COW !in t {
      MovedWithoutCow(t, w, p, x, y);
    }
  }

  lemma MovedWithoutCow(t: Table, w: WindowId, p: WindowId, x: Int16, y: Int16)
    requires w in t && p in t && COW !in t
    ensures COW !in MoveUnder(t, w, p, x, y)
  {
    hide Without, InsertTop;
  }

  lemma CirculateKeepsCow(t: Table, container: WindowId, direction: int)
    requires WellFormed(t) && CowOnTop(t)
    ensures CowOnTop(CirculateWindow(t, container, direction).0)
  {
    if container in t {
      var top := CirculateTop(t[container].children, container);
      if top >= 2 {
        RotationEnds(t[container].children, top);
      }
    }
  }

  lemma InsertBelowLast(rest: seq<WindowId>, i: nat, w: WindowId)
    requires rest != [] && i <= |rest| && w != rest[|rest| - 1]
    ensures var s := InsertAt(rest, i, w); s != [] && (s[|s| - 1] == rest[|rest| - 1] <==> i < |rest|)
  {
  }

  lemma CowOnReplacedList(t: Table, after: seq<WindowId>)
    requires COW in t && ROOT in t
    ensures CowOnTop(t[ROOT := t[ROOT].(children := after)]) <==> after != [] && after[|after| - 1] == COW
  {
  }

  lemma RootListReplaced(t: Table, w: WindowId, sibling: Option<WindowId>, mode: int, action: RestackAction)
    requires COW in t && ROOT in t && w in t && w != COW && t[w].parent == ROOT
    requires var kids := t[ROOT].children; NoDups(kids) && w in kids && kids[|kids| - 1] == COW
    requires ResolveRestack(t, t[ROOT].children, w, sibling, mode) == Some(action)
    ensures CowOnTop(RestackWindow(t, w, sibling, Some(mode))) <==> action != AboveSibling(w)
  {
    hide ApplyRestack, ResolveRestack, NoDups, RestackWindow, CowOnTop;
    Restacked(t, w, sibling, mode);
    CowOnReplacedList(t, ApplyRestack(t[ROOT].children, w, action));
    ResolveFacts(t, t[ROOT].children, w, sibling, mode);
    RestackListCow(t[ROOT].children, w, action);
  }

  lemma RootListRestacked(t: Table, w: WindowId, sibling: Option<WindowId>, mode: int)
    requires COW in t && ROOT in t && w in t && w != COW && t[w].parent == ROOT && CowOnTop(t)
    requires NoDups(t[ROOT].children) && w in t[ROOT].children
    ensures CowOnTop(RestackWindow(t, w, sibling, Some(mode))) <==> !(mode == 0 && sibling == Some(w))
  {
    hide ApplyRestack, ResolveRestack, NoDups, RestackWindow;
    ResolveFacts(t, t[ROOT].children, w, sibling, mode);
    var action := ResolveRestack(t, t[ROOT].children, w, sibling, mode);
    if action.Some? {
      RootListReplaced(t, w, sibling, mode, action.value);
      hide CowOnTop;
    } else {
      Restacked(t, w, sibling, mode);
      hide CowOnTop;
    }
  }

  lemma OtherListRestacked(t: Table, w: WindowId, sibling: Option<WindowId>, mode: Option<int>)
    requires CowOnTop(t) && w in t
    requires COW !in t || t[w].parent != ROOT || mode.None?
    ensures CowOnTop(RestackWindow(t, w, sibling, mode))
  {
    hide ApplyRestack, ResolveRestack;
  }

  /** A restack of another window takes the overlay window off the top exactly when a child of the
      root is stacked above itself. The dispatcher refuses that request with BadMatch before it comes here. */
  lemma RestackKeepsCowIff(t: Table, w: WindowId, sibling: Option<WindowId>, mode: Option<int>)
    requires WellFormed(t) && CowOnTop(t) && w != COW && w in t && w != ROOT
    ensures CowOnTop(RestackWindow(t, w, sibling, mode))
       <==> !(COW in t && t[w].parent == ROOT && mode == Some(0) && sibling == Some(w))
  {
    assert WindowOk(t, w) && WindowOk(t, t[w].parent);
    hide RestackWindow, NoDups, WellFormed;
    if COW in t && t[w].parent == ROOT && mode.Some? {
      RootListRestacked(t, w, sibling, mode.value);
    } else {
      OtherListRestacked(t, w, sibling, mode);
    }
  }

  lemma ResolvedIsChild(t: Table, kids: seq<WindowId>, w: WindowId, sibling: Option<WindowId>, mode: int)
    requires ResolveRestack(t, kids, w, sibling, mode).Some?
    ensures w in kids
  {
  }

  lemma ResolveFacts(t: Table, kids: seq<WindowId>, w: WindowId, sibling: Option<WindowId>, mode: int)
    requires w in kids
    ensures var action := ResolveRestack(t, kids, w, sibling, mode);
            && (action == Some(AboveSibling(w)) <==> mode == 0 && sibling == Some(w))
            && (action.Some? && (action.value.AboveSibling? || action.value.BelowSibling?) ==> action.value.sibling in kids)
  {
  }

  /** Where the overlay window sits last, only stacking above the window itself goes past it. */
  lemma IndexBelowCow(rest: seq<WindowId>, w: WindowId, action: RestackAction)
    requires NoDups(rest) && rest != [] && rest[|rest| - 1] == COW && w !in rest
    requires action.AboveSibling? || action.BelowSibling? ==> action.sibling == w || action.sibling in rest
    requires action != NoOp
    ensures InsertionIndex(rest, action) < |rest| <==> action != AboveSibling(w)
  {
  }

  lemma InsertedUnderCow(rest: seq<WindowId>, w: WindowId, action: RestackAction)
    requires NoDups(rest) && rest != [] && rest[|rest| - 1] == COW && w !in rest
    requires action.AboveSibling? || action.BelowSibling? ==> action.sibling == w || action.sibling in rest
    requires action != NoOp
    ensures var after := InsertAt(rest, InsertionIndex(rest, action), w);
            after != [] && (after[|after| - 1] == COW <==> action != AboveSibling(w))
  {
    IndexBelowCow(rest, w, action);
    hide InsertionIndex, NoDups;
    InsertBelowLast(rest, InsertionIndex(rest, action), w);
  }

  /** The same, counted in the list without the window. */
  lemma RestackIsInsertWithout(kids: seq<WindowId>, w: WindowId, action: RestackAction)
    requires NoDups(kids) && w in kids && action != NoOp
    ensures var rest := Without(kids, w);
            ApplyRestack(kids, w, action) == InsertAt(rest, InsertionIndex(rest, action), w)
  {
    RestackIsInsert(kids, w, action);
    RestRemoved(kids, w);
  }

  lemma WithoutFacts(kids: seq<WindowId>, w: WindowId)
    requires NoDups(kids) && w in kids && w != COW && kids[|kids| - 1] == COW
    ensures var rest := Without(kids, w);
            NoDups(rest) && w !in rest && rest != [] && rest[|rest| - 1] == COW
  {
    WithoutNoDups(kids, w);
    WithoutKeepsLast(kids, w);
  }

  lemma RestackListCow(kids: seq<WindowId>, w: WindowId, action: RestackAction)
    requires NoDups(kids) && w in kids && w != COW && kids[|kids| - 1] == COW
    requires action.AboveSibling? || action.BelowSibling? ==> action.sibling in kids
    ensures var after := ApplyRestack(kids, w, action);
            after != [] && (after[|after| - 1] == COW <==> action != AboveSibling(w))
  {
    hide ApplyRestack, NoDups, InsertionIndex, Without, InsertAt;
    WithoutFacts(kids, w);
    if action == NoOp {
      NoOpStays(kids, w);
    } else {
      RestackIsInsertWithout(kids, w, action);
      InsertedUnderCow(Without(kids, w), w, action);
    }
  }

  lemma NoOpStays(kids: seq<WindowId>, w: WindowId)
    requires w in kids
    ensures ApplyRestack(kids, w, NoOp) == kids
  {
  }
}
