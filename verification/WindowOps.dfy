/** What each request does to the window table, and that the table stays a rooted tree. */
module WindowOps {
  import opened Ints
  import opened Wrappers
  import opened WindowTree

  // ----- Child lists -----

  function InsertAt<T>(s: seq<T>, i: nat, v: T): seq<T>
    requires i <= |s|
  {
    s[..i] + [v] + s[i..]
  }

  /** `retain(|child| *child != w)` */
  function Without(s: seq<WindowId>, w: WindowId): (r: seq<WindowId>)
    ensures forall c :: c in r <==> c in s && c != w
    ensures |r| <= |s|
  {
    if s == [] then [] else (if s[0] == w then [] else [s[0]]) + Without(s[1..], w)
  }

  lemma {:induction false} WithoutAbsent(s: seq<WindowId>, w: WindowId)
    requires w !in s
    ensures Without(s, w) == s
  {
    if s == [] {
    } else {
      WithoutAbsent(s[1..], w);
    }
  }

  lemma {:induction false} WithoutConcat(a: seq<WindowId>, b: seq<WindowId>, w: WindowId)
    ensures Without(a + b, w) == Without(a, w) + Without(b, w)
  {
    if a == [] {
      assert a + b == b;
    } else {
      assert (a + b)[1..] == a[1..] + b;
      WithoutConcat(a[1..], b, w);
    }
  }

  lemma {:induction false} WithoutNoDups(s: seq<WindowId>, w: WindowId)
    requires NoDups(s)
    ensures NoDups(Without(s, w))
  {
    if s == [] {
    } else {
      WithoutNoDups(s[1..], w);
      assert s[0] !in s[1..];
      PrependNoDups(s[0], Without(s[1..], w));
    }
  }

  lemma PrependNoDups<T>(x: T, s: seq<T>)
    requires NoDups(s) && x !in s
    ensures NoDups([x] + s)
  {
  }

  lemma InsertNoDups(s: seq<WindowId>, i: nat, w: WindowId)
    requires NoDups(s) && w !in s && i <= |s|
    ensures NoDups(InsertAt(s, i, w))
    ensures forall c :: c in InsertAt(s, i, w) <==> c == w || c in s
  {
  }

  /** Where a new top child goes: below the overlay window if that is on top. */
  function CowAwareTop(children: seq<WindowId>): (i: nat)
    ensures i <= |children|
  {
    if children != [] && children[|children| - 1] == COW then |children| - 1 else |children|
  }

  function InsertTop(children: seq<WindowId>, w: WindowId): seq<WindowId> {
    InsertAt(children, CowAwareTop(children), w)
  }

  // ----- CreateWindow -----

  datatype CreateRequest = CreateRequest(window: WindowId, parent: WindowId, x: Int16, y: Int16,
                                         width: Card16, height: Card16, borderWidth: Card16)

  const PLACEHOLDER := Window(ROOT, [], 0, 0, 1, 1, 0, Unmapped)

  function CreateWindow(t: Table, q: CreateRequest): Table {
    var parent := if q.parent in t then t[q.parent] else PLACEHOLDER;
    t[q.parent := parent.(children := InsertTop(parent.children, q.window))]
     [q.window := Window(q.parent, [], q.x, q.y, q.width, q.height, q.borderWidth, Unmapped)]
  }

  lemma CreateKeepsLinked(t: Table, q: CreateRequest)
    requires Linked(t) && q.window !in t && q.parent in t
    ensures Linked(CreateWindow(t, q))
  {
    var u := CreateWindow(t, q);
    assert WindowOk(t, q.parent);
    InsertNoDups(t[q.parent].children, CowAwareTop(t[q.parent].children), q.window);
    forall w | w in u ensures WindowOk(u, w) {
      if w != q.window {
        assert WindowOk(t, w);
      }
    }
  }

  /** The way from `w` to the root is the same in both tables. */
  ghost predicate SamePath(t: Table, u: Table, w: WindowId) {
    Reaches(t, w) && Reaches(u, w) && RootPath(u, w) == RootPath(t, w)
  }

  lemma CreateKeepsTree(t: Table, q: CreateRequest)
    requires WellFormed(t) && q.window !in t && q.parent in t
    ensures WellFormed(CreateWindow(t, q))
    ensures var u := CreateWindow(t, q);
            SamePath(t, u, q.parent) && RootPath(u, q.window) == [q.window] + RootPath(u, q.parent)
            && forall w {:trigger SamePath(t, u, w)} :: w in t ==> SamePath(t, u, w)
  {
    var u := CreateWindow(t, q);
    CreateKeepsLinked(t, q);
    forall w | w in t ensures SamePath(t, u, w) {
      assert Reaches(t, w);
      PathInTable(t, w);
      PathUnchanged(t, u, w);
    }
    assert SamePath(t, u, q.parent);
    RootPathStep(u, q.window);
    assert forall w :: w in u ==> w == q.window || SamePath(t, u, w);
  }

  // ----- ConfigureWindow without the restack -----

  function Place(t: Table, w: WindowId, x: Option<Int16>, y: Option<Int16>, width: Option<Card16>,
                 height: Option<Card16>, borderWidth: Option<Card16>): Table
  {
    if w !in t then t
    else
      var v := t[w];
      t[w := v.(x := if x.Some? then x.value else v.x,
                y := if y.Some? then y.value else v.y,
                width := if width.Some? then width.value else v.width,
                height := if height.Some? then height.value else v.height,
                borderWidth := if borderWidth.Some? then borderWidth.value else v.borderWidth)]
  }

  /** Only geometry and map states may differ. */
  ghost predicate SameLinks(t: Table, u: Table) {
    t.Keys == u.Keys && forall w :: w in t ==> u[w].parent == t[w].parent && u[w].children == t[w].children
  }

  lemma SameLinksWellFormed(t: Table, u: Table)
    requires WellFormed(t) && SameLinks(t, u)
    ensures WellFormed(u)
  {
    forall w | w in u ensures WindowOk(u, w) {
      assert WindowOk(t, w);
    }
    SameParentsWellFormed(t, u);
  }

  // ----- Reparent -----

  datatype ReparentError = BadWindow | BadMatch

  datatype ReparentResult = ReparentResult(window: WindowId, oldParent: WindowId, newParent: WindowId, x: Int16, y: Int16)

  /** The upward walk of `is_descendant_of`, `seen` steps in. */
  function DescendsFrom(t: Table, current: WindowId, ancestor: WindowId, seen: nat): bool
    decreases |t| + 1 - seen
  {
    if current == ROOT || seen > |t| then false
    else if current !in t then false
    else if t[current].parent == ancestor then true
    else if t[current].parent == current then false
    else DescendsFrom(t, t[current].parent, ancestor, seen + 1)
  }

  /** The counter never cuts a real path short: the walk decides strict ancestry. */
  lemma {:induction false} DescendsFromCorrect(t: Table, w: WindowId, ancestor: WindowId, seen: nat)
    requires WellFormed(t) && w in t && Reaches(t, w) && seen + Depth(t, w) <= |t|
    ensures DescendsFrom(t, w, ancestor, seen) <==> StrictAncestor(t, ancestor, w)
    decreases Depth(t, w)
  {
    if w == ROOT {
      RootPathRoot(t);
    } else {
      var p := t[w].parent;
      RootPathStep(t, w);
      OnPathStep(t, ancestor, w);
      if p == ROOT {
        RootPathRoot(t);
        assert !DescendsFrom(t, ROOT, ancestor, seen + 1);
      } else {
        if p != ancestor {
          OnPathStep(t, ancestor, p);
        }
        assert p in t by {
          assert WindowOk(t, w);
        }
        DescendsFromCorrect(t, p, ancestor, seen + 1);
      }
    }
  }

  lemma IsDescendantCorrect(t: Table, w: WindowId, ancestor: WindowId)
    requires WellFormed(t)
    ensures DescendsFrom(t, w, ancestor, 0) <==> w in t && StrictAncestor(t, ancestor, w)
  {
    if w in t {
      assert Reaches(t, w);
      DepthBound(t, w);
      DescendsFromCorrect(t, w, ancestor, 0);
    }
  }

  function Unlink(t: Table, p: WindowId, w: WindowId): Table {
    if p in t then t[p := t[p].(children := Without(t[p].children, w))] else t
  }

  function MoveUnder(t: Table, w: WindowId, p: WindowId, x: Int16, y: Int16): Table
    requires w in t && p in t
  {
    var cut := Unlink(t, t[w].parent, w);
    var joined := cut[p := cut[p].(children := InsertTop(cut[p].children, w))];
    joined[w := joined[w].(parent := p, x := x, y := y)]
  }

  function ReparentWindow(t: Table, w: WindowId, p: WindowId, x: Int16, y: Int16)
    : (r: (Table, Result<ReparentResult, ReparentError>))
  {
    if w == ROOT || w == p || DescendsFrom(t, p, w, 0) then (t, Err(BadMatch))
    else if w !in t || p !in t then (t, Err(BadWindow))
    else (MoveUnder(t, w, p, x, y), Ok(ReparentResult(w, t[w].parent, p, x, y)))
  }

  lemma MoveUnderLinked(t: Table, w: WindowId, p: WindowId, x: Int16, y: Int16)
    requires Linked(t) && w in t && p in t && w != ROOT && w != p
    ensures Linked(MoveUnder(t, w, p, x, y))
  {
    assert WindowOk(t, w);
    forall v | v in MoveUnder(t, w, p, x, y) ensures WindowOk(MoveUnder(t, w, p, x, y), v) {
      MoveUnderWindowOk(t, w, p, x, y, v);
    }
  }

  /** The child lists after a move: `w` leaves its old parent's list and enters the new one. */
  lemma MoveUnderChildren(t: Table, w: WindowId, p: WindowId, x: Int16, y: Int16, v: WindowId)
    requires Linked(t) && w in t && p in t && w != ROOT && w != p && v in t
    ensures var u := MoveUnder(t, w, p, x, y);
            && u.Keys == t.Keys && NoDups(u[v].children)
            && u[v].parent == (if v == w then p else t[v].parent)
            && forall c :: c in u[v].children <==> if c == w then v == p else c in t[v].children
  {
    var o := t[w].parent;
    var cut := Unlink(t, o, w);
    assert WindowOk(t, v) && WindowOk(t, w);
    WithoutNoDups(t[v].children, w);
    assert w in t[v].children ==> v == o;
    if v == p {
      InsertNoDups(cut[p].children, CowAwareTop(cut[p].children), w);
    }
  }

  lemma MoveUnderWindowOk(t: Table, w: WindowId, p: WindowId, x: Int16, y: Int16, v: WindowId)
    requires Linked(t) && w in t && p in t && w != ROOT && w != p && v in t
    ensures v in MoveUnder(t, w, p, x, y) && WindowOk(MoveUnder(t, w, p, x, y), v)
  {
    hide MoveUnder;
    var u := MoveUnder(t, w, p, x, y);
    assert WindowOk(t, v);
    MoveUnderChildren(t, w, p, x, y, v);
    MoveUnderChildren(t, w, p, x, y, u[v].parent);
    forall c | c in u[v].children ensures c in u && c != ROOT && u[c].parent == v {
      MoveUnderChildren(t, w, p, x, y, c);
    }
  }

  /** A path that avoids the moved window is untouched. */
  lemma MoveUnderOutside(t: Table, w: WindowId, p: WindowId, x: Int16, y: Int16, v: WindowId)
    requires WellFormed(t) && w in t && p in t && w != ROOT && w != p && v in t && !OnPath(t, w, v)
    ensures var u := MoveUnder(t, w, p, x, y); Reaches(u, v) && RootPath(u, v) == RootPath(t, v)
  {
    var u := MoveUnder(t, w, p, x, y);
    assert Reaches(t, v);
    PathInTable(t, v);
    forall a | a in RootPath(t, v) && a != ROOT ensures a in u && u[a].parent == t[a].parent {}
    PathUnchanged(t, u, v);
  }

  /** A window below the moved one keeps its way to it and then goes on above the new parent. */
  lemma {:induction false} MoveUnderInside(t: Table, w: WindowId, p: WindowId, x: Int16, y: Int16, v: WindowId, k: nat)
    requires WellFormed(t) && w in t && p in t && w != ROOT && w != p && !OnPath(t, w, p) && Reaches(t, p)
    requires v in t && Reaches(t, v) && k < |RootPath(t, v)| && RootPath(t, v)[k] == w
    ensures var u := MoveUnder(t, w, p, x, y);
            Reaches(u, v) && RootPath(u, v) == RootPath(t, v)[..k + 1] + RootPath(t, p)
    decreases k
  {
    var u := MoveUnder(t, w, p, x, y);
    MoveUnderOutside(t, w, p, x, y, p);
    if k == 0 {
      RootPathStep(u, w);
      assert RootPath(t, v)[..1] == [w];
    } else {
      RootPathInTable(t, v, 0);
      RootPathStep(t, v);
      RootPathNoDups(t, v);
      assert v != w;
      MoveUnderInside(t, w, p, x, y, t[v].parent, k - 1);
      RootPathStep(u, v);
      assert RootPath(t, v)[..k + 1] == [v] + RootPath(t, t[v].parent)[..k];
    }
  }

  lemma MoveUnderKeepsTree(t: Table, w: WindowId, p: WindowId, x: Int16, y: Int16)
    requires WellFormed(t) && w in t && p in t && w != ROOT && w != p && !OnPath(t, w, p)
    ensures WellFormed(MoveUnder(t, w, p, x, y))
  {
    var u := MoveUnder(t, w, p, x, y);
    MoveUnderLinked(t, w, p, x, y);
    assert Reaches(t, p);
    forall v | v in u ensures Reaches(u, v) {
      assert Reaches(t, v);
      if OnPath(t, w, v) {
        var k :| 0 <= k < |RootPath(t, v)| && RootPath(t, v)[k] == w;
        MoveUnderInside(t, w, p, x, y, v, k);
      } else {
        MoveUnderOutside(t, w, p, x, y, v);
      }
    }
  }

  /** The three guards are exactly what keeps a reparent from closing a cycle. */
  lemma ReparentKeepsTree(t: Table, w: WindowId, p: WindowId, x: Int16, y: Int16)
    requires WellFormed(t)
    ensures WellFormed(ReparentWindow(t, w, p, x, y).0)
    ensures ReparentWindow(t, w, p, x, y).1.Ok? <==> w in t && p in t && w != ROOT && !OnPath(t, w, p)
  {
    IsDescendantCorrect(t, p, w);
    if w in t && p in t && w != ROOT {
      assert Reaches(t, p);
      if p == ROOT {
        RootPathRoot(t);
      } else {
        OnPathStep(t, w, p);
      }
      if w != p && !OnPath(t, w, p) {
        MoveUnderKeepsTree(t, w, p, x, y);
      }
      OnPathSelf(t, p);
    }
  }

  /** What a move does to the records: the window's own links and position, its entry in two child lists. */
  lemma MoveUnderRecords(t: Table, w: WindowId, p: WindowId, x: Int16, y: Int16)
    requires WellFormed(t) && w in t && p in t && w != ROOT && w != p
    ensures var u, o := MoveUnder(t, w, p, x, y), t[w].parent;
            && u.Keys == t.Keys && o != w && o in t
            && u[w] == t[w].(parent := p, x := x, y := y)
            && u[p] == t[p].(children := InsertTop(Without(t[p].children, w), w))
            && (o != p ==> u[o] == t[o].(children := Without(t[o].children, w)))
            && forall v :: v in t && v != w && v != p && v != o ==> u[v] == t[v]
  {
    assert WindowOk(t, w) && WindowOk(t, p);
    var o := t[w].parent;
    assert o != w by {
      assert Reaches(t, w);
      RootPathStep(t, w);
    }
    if o != p {
      assert w !in t[p].children;
      WithoutAbsent(t[p].children, w);
    }
  }

  /** Where the way from `v` to the root goes after `w` has moved under `p`. */
  ghost function MovedPath(t: Table, w: WindowId, p: WindowId, v: WindowId): seq<WindowId>
    requires Reaches(t, w) && Reaches(t, p) && Reaches(t, v)
  {
    if OnPath(t, w, v) && |RootPath(t, w)| <= |RootPath(t, v)|
    then RootPath(t, v)[..|RootPath(t, v)| - |RootPath(t, w)| + 1] + RootPath(t, p)
    else RootPath(t, v)
  }

  lemma MoveUnderPath(t: Table, w: WindowId, p: WindowId, x: Int16, y: Int16, v: WindowId)
    requires WellFormed(t) && w in t && p in t && w != ROOT && w != p && !OnPath(t, w, p) && v in t
    ensures Reaches(t, w) && Reaches(t, p) && Reaches(t, v)
    ensures var u := MoveUnder(t, w, p, x, y);
            Reaches(u, v) && RootPath(u, v) == MovedPath(t, w, p, v) && (OnPath(u, w, v) <==> OnPath(t, w, v))
  {
    hide MoveUnder, WellFormed;
    assert Reaches(t, w) && Reaches(t, p) && Reaches(t, v) by {
      RootedReaches(t, w);
      RootedReaches(t, p);
      RootedReaches(t, v);
    }
    if OnPath(t, w, v) {
      var k :| 0 <= k < |RootPath(t, v)| && RootPath(t, v)[k] == w;
      RootPathSuffix(t, v, k);
      MoveUnderInside(t, w, p, x, y, v, k);
      assert RootPath(MoveUnder(t, w, p, x, y), v)[k] == w;
    } else {
      MoveUnderOutside(t, w, p, x, y, v);
    }
  }

  lemma RootedReaches(t: Table, v: WindowId)
    requires WellFormed(t) && v in t
    ensures Reaches(t, v)
  {
  }

  lemma AcceptedReparent(t: Table, w: WindowId, p: WindowId, x: Int16, y: Int16)
    requires WellFormed(t) && ReparentWindow(t, w, p, x, y).1.Ok?
    ensures w in t && p in t && w != ROOT && w != p && !OnPath(t, w, p)
    ensures ReparentWindow(t, w, p, x, y).0 == MoveUnder(t, w, p, x, y)
  {
    ReparentKeepsTree(t, w, p, x, y);
  }

  /** An accepted reparent touches no record but the window's, its old parent's and its new parent's. */
  lemma ReparentRecords(t: Table, w: WindowId, p: WindowId, x: Int16, y: Int16)
    requires WellFormed(t) && ReparentWindow(t, w, p, x, y).1.Ok?
    ensures w in t && p in t
    ensures var u := ReparentWindow(t, w, p, x, y).0; var o := t[w].parent;
            && u.Keys == t.Keys && o in t
            && u[w] == t[w].(parent := p, x := x, y := y)
            && u[p] == t[p].(children := InsertTop(Without(t[p].children, w), w))
            && (o != p ==> u[o] == t[o].(children := Without(t[o].children, w)))
            && (forall v :: v in t && v != w && v != p && v != o ==> u[v] == t[v])
  {
    AcceptedReparent(t, w, p, x, y);
    hide MoveUnder, WellFormed, ReparentWindow;
    MoveUnderRecords(t, w, p, x, y);
  }

  /** It moves the window with its whole subtree: every path through the window goes on above the new
      parent, all others stay. */
  lemma ReparentMovesSubtree(t: Table, w: WindowId, p: WindowId, x: Int16, y: Int16)
    requires WellFormed(t) && ReparentWindow(t, w, p, x, y).1.Ok?
    ensures var u := ReparentWindow(t, w, p, x, y).0;
            && Subtree(u, w) == Subtree(t, w)
            && forall v {:trigger RootPath(u, v)} :: v in t ==>
                 Reaches(t, w) && Reaches(t, p) && Reaches(t, v) && Reaches(u, v) && RootPath(u, v) == MovedPath(t, w, p, v)
  {
    AcceptedReparent(t, w, p, x, y);
    ReparentRecords(t, w, p, x, y);
    hide MoveUnder, WellFormed, MovedPath, Reaches, ReparentWindow, OnPath;
    var u := MoveUnder(t, w, p, x, y);
    forall v | v in t
      ensures Reaches(t, w) && Reaches(t, p) && Reaches(t, v)
      ensures Reaches(u, v) && RootPath(u, v) == MovedPath(t, w, p, v) && (OnPath(u, w, v) <==> OnPath(t, w, v))
    {
      MoveUnderPath(t, w, p, x, y, v);
    }
  }

  // ----- The composite overlay window -----

  function MaterializeCow(t: Table): Table
    requires COW !in t
  {
    var width := if ROOT in t then t[ROOT].width else 1;
    var height := if ROOT in t then t[ROOT].height else 1;
    var added := t[COW := Window(ROOT, [], 0, 0, width, height, 0, Viewable)];
    if ROOT in added then added[ROOT := added[ROOT].(children := InsertTop(added[ROOT].children, COW))] else added
  }

  function DestroyCow(t: Table): Table {
    Unlink(t, ROOT, COW) - {COW}
  }

  lemma MaterializeKeepsTree(t: Table)
    requires WellFormed(t) && COW !in t
    ensures WellFormed(MaterializeCow(t))
    ensures var u := MaterializeCow(t);
            u.Keys == t.Keys + {COW} && u[ROOT].children == t[ROOT].children + [COW]
            && forall w {:trigger SamePath(t, u, w)} :: w in t ==> SamePath(t, u, w)
  {
    var q := CreateRequest(COW, ROOT, 0, 0, t[ROOT].width, t[ROOT].height, 0);
    var c := CreateWindow(t, q);
    var u := MaterializeCow(t);
    CreateKeepsTree(t, q);
    assert SameLinks(c, u);
    SameLinksWellFormed(c, u);
    assert WindowOk(t, ROOT);
    forall w | w in t ensures SamePath(t, u, w) {
      assert SamePath(t, c, w);
      SameParentsSamePaths(c, u, w);
    }
  }

  /** Tearing the overlay window down keeps the tree exactly when it has no children and is still a
      child of the root. */
  lemma DestroyCowKeepsTreeIff(t: Table)
    requires WellFormed(t) && COW in t
    ensures WellFormed(DestroyCow(t)) <==> t[COW].children == [] && t[COW].parent == ROOT
  {
    var u := DestroyCow(t);
    assert WindowOk(t, COW) && Reaches(t, COW);
    RootPathStep(t, COW);
    if t[COW].children == [] && t[COW].parent == ROOT {
      DestroyCowLinked(t);
      forall w | w in u ensures Reaches(u, w) {
        assert Reaches(t, w);
        CowNotOnPath(t, w);
        PathInTable(t, w);
        PathUnchanged(t, u, w);
      }
    } else if t[COW].children != [] {
      var c := t[COW].children[0];
      assert Reaches(t, c);
      RootPathStep(t, c);
      assert c in u && !WindowOk(u, c);
    } else {
      assert t[COW].parent in u && !WindowOk(u, t[COW].parent);
    }
  }

  lemma DestroyCowLinked(t: Table)
    requires Linked(t) && COW in t && t[COW].children == [] && t[COW].parent == ROOT
    ensures Linked(DestroyCow(t))
  {
    var u := DestroyCow(t);
    assert WindowOk(t, ROOT);
    WithoutNoDups(t[ROOT].children, COW);
    forall w | w in u ensures WindowOk(u, w) {
      assert WindowOk(t, w);
    }
  }

  lemma {:induction false} CowNotOnPath(t: Table, w: WindowId)
    requires WellFormed(t) && COW in t && t[COW].children == [] && w in t && w != COW && Reaches(t, w)
    ensures COW !in RootPath(t, w)
    decreases Depth(t, w)
  {
    if w == ROOT {
      RootPathRoot(t);
    } else {
      RootPathStep(t, w);
      assert WindowOk(t, w);
      CowNotOnPath(t, t[w].parent);
    }
  }
}
