/** The window table: a map from window ids to records with a parent pointer and an ordered child
    list, bottom to top. What it means for such a table to be a rooted tree, and paths to the root. */
module WindowTree {
  import opened Ints

  type WindowId = Card32

  const ROOT: WindowId := 0x100
  /** The composite overlay window. */
  const COW: WindowId := 0x103

  datatype MapState = Unmapped | Unviewable | Viewable

  datatype Window = Window(parent: WindowId, children: seq<WindowId>, x: Int16, y: Int16,
                           width: Card16, height: Card16, borderWidth: Card16, mapState: MapState)

  type Table = map<WindowId, Window>

  predicate NoDups<T(==)>(s: seq<T>) {
    forall i, j :: 0 <= i < j < |s| ==> s[i] != s[j]
  }

  /** The parent of `w` is a window and lists `w`; every child of `w` is a window that names `w` as its
      parent, and no child comes twice. */
  ghost predicate WindowOk(t: Table, w: WindowId)
    requires w in t
  {
    && t[w].parent in t
    && (if w == ROOT then t[w].parent == ROOT else w in t[t[w].parent].children)
    && (forall c :: c in t[w].children ==> c in t && c != ROOT && t[c].parent == w)
    && NoDups(t[w].children)
  }

  /** Parent pointers and child lists agree; a window is in exactly one list, once. The trigger keeps
      the solver from walking up the tree on its own. */
  ghost predicate Linked(t: Table) {
    ROOT in t && forall w {:trigger WindowOk(t, w)} :: w in t ==> WindowOk(t, w)
  }

  /** `w` is exactly `n` parent steps below the root. */
  ghost predicate Hops(t: Table, w: WindowId, n: nat)
    decreases n
  {
    if n == 0 then w == ROOT else w != ROOT && w in t && Hops(t, t[w].parent, n - 1)
  }

  ghost predicate Reaches(t: Table, w: WindowId) {
    exists n :: Hops(t, w, n)
  }

  /** A rooted tree. */
  ghost predicate WellFormed(t: Table) {
    Linked(t) && forall w {:trigger Reaches(t, w)} :: w in t ==> Reaches(t, w)
  }

  lemma {:induction false} HopsUnique(t: Table, w: WindowId, m: nat, n: nat)
    requires Hops(t, w, m) && Hops(t, w, n)
    ensures m == n
    decreases m
  {
    if m == 0 || n == 0 {
    } else {
      HopsUnique(t, t[w].parent, m - 1, n - 1);
    }
  }

  ghost function Depth(t: Table, w: WindowId): (n: nat)
    requires Reaches(t, w)
    ensures Hops(t, w, n)
  {
    var n :| Hops(t, w, n);
    n
  }

  /** The windows from `w` up to the root. */
  ghost function PathUp(t: Table, w: WindowId, n: nat): (p: seq<WindowId>)
    requires Hops(t, w, n)
    ensures |p| == n + 1 && p[0] == w && p[n] == ROOT
    decreases n
  {
    if n == 0 then [ROOT] else [w] + PathUp(t, t[w].parent, n - 1)
  }

  ghost function RootPath(t: Table, w: WindowId): (p: seq<WindowId>)
    requires Reaches(t, w)
    ensures |p| == Depth(t, w) + 1 && p[0] == w && p[|p| - 1] == ROOT
  {
    PathUp(t, w, Depth(t, w))
  }

  /** `a` is `w` or lies on the way from `w` to the root. */
  ghost predicate OnPath(t: Table, a: WindowId, w: WindowId) {
    Reaches(t, w) && a in RootPath(t, w)
  }

  ghost predicate StrictAncestor(t: Table, a: WindowId, w: WindowId) {
    Reaches(t, w) && a in RootPath(t, w)[1..]
  }

  ghost function Subtree(t: Table, a: WindowId): set<WindowId> {
    set w | w in t && OnPath(t, a, w)
  }

  lemma RootPathRoot(t: Table)
    ensures Reaches(t, ROOT) && Depth(t, ROOT) == 0 && RootPath(t, ROOT) == [ROOT]
  {
    assert Hops(t, ROOT, 0);
    HopsUnique(t, ROOT, 0, Depth(t, ROOT));
  }

  lemma RootPathStep(t: Table, w: WindowId)
    requires w != ROOT && w in t
    requires Reaches(t, w) || Reaches(t, t[w].parent)
    ensures Reaches(t, w) && Reaches(t, t[w].parent)
    ensures Depth(t, w) == Depth(t, t[w].parent) + 1
    ensures RootPath(t, w) == [w] + RootPath(t, t[w].parent)
  {
    var p := t[w].parent;
    if Reaches(t, p) {
      assert Hops(t, w, Depth(t, p) + 1);
    }
    assert Reaches(t, w);
    assert Hops(t, p, Depth(t, w) - 1);
    HopsUnique(t, p, Depth(t, p), Depth(t, w) - 1);
  }

  /** The path from any window on the path is the rest of the path. */
  lemma {:induction false} RootPathSuffix(t: Table, w: WindowId, i: nat)
    requires Reaches(t, w) && i < |RootPath(t, w)|
    ensures var a := RootPath(t, w)[i];
            Reaches(t, a) && RootPath(t, a) == RootPath(t, w)[i..] && Depth(t, a) == Depth(t, w) - i
    decreases i
  {
    if i == 0 {
    } else {
      RootPathStep(t, w);
      RootPathSuffix(t, t[w].parent, i - 1);
      assert RootPath(t, w)[i..] == RootPath(t, t[w].parent)[i - 1..];
    }
  }

  lemma RootPathInTable(t: Table, w: WindowId, i: nat)
    requires Reaches(t, w) && w in t && ROOT in t && i < |RootPath(t, w)|
    ensures RootPath(t, w)[i] in t
    ensures i + 1 < |RootPath(t, w)| ==>
              RootPath(t, w)[i] != ROOT && RootPath(t, w)[i + 1] == t[RootPath(t, w)[i]].parent
  {
    RootPathSuffix(t, w, i);
    var a := RootPath(t, w)[i];
    if a != ROOT {
      RootPathStep(t, a);
      assert RootPath(t, w)[i..][1] == t[a].parent;
    } else {
      RootPathRoot(t);
    }
  }

  /** No window comes twice on a path. */
  lemma RootPathNoDups(t: Table, w: WindowId)
    requires Reaches(t, w)
    ensures NoDups(RootPath(t, w))
  {
    var p := RootPath(t, w);
    forall i, j | 0 <= i < j < |p| ensures p[i] != p[j] {
      RootPathSuffix(t, w, i);
      RootPathSuffix(t, w, j);
    }
  }

  lemma NoDupsSize<T>(s: seq<T>, u: set<T>)
    requires NoDups(s) && forall x :: x in s ==> x in u
    ensures |s| <= |u|
  {
    if s != [] {
      NoDupsSize(s[1..], u - {s[0]});
    }
  }

  /** A path is never longer than the table. */
  lemma DepthBound(t: Table, w: WindowId)
    requires Reaches(t, w) && w in t && ROOT in t
    ensures Depth(t, w) < |t|
  {
    var p := RootPath(t, w);
    RootPathNoDups(t, w);
    forall a | a in p ensures a in t.Keys {
      var i :| 0 <= i < |p| && p[i] == a;
      RootPathInTable(t, w, i);
    }
    NoDupsSize(p, t.Keys);
  }

  lemma OnPathSelf(t: Table, w: WindowId)
    requires Reaches(t, w)
    ensures OnPath(t, w, w) && OnPath(t, ROOT, w)
  {
  }

  lemma OnPathStep(t: Table, a: WindowId, w: WindowId)
    requires w in t && w != ROOT && Reaches(t, w)
    ensures Reaches(t, t[w].parent)
    ensures OnPath(t, a, w) <==> a == w || OnPath(t, a, t[w].parent)
    ensures StrictAncestor(t, a, w) <==> OnPath(t, a, t[w].parent)
  {
    RootPathStep(t, w);
  }

  lemma OnPathTransitive(t: Table, a: WindowId, b: WindowId, c: WindowId)
    requires OnPath(t, a, b) && OnPath(t, b, c)
    ensures OnPath(t, a, c)
  {
    var p := RootPath(t, c);
    var i :| 0 <= i < |p| && p[i] == b;
    RootPathSuffix(t, c, i);
  }

  lemma OnPathAntisymmetric(t: Table, a: WindowId, b: WindowId)
    requires OnPath(t, a, b) && OnPath(t, b, a)
    ensures a == b
  {
    var p, q := RootPath(t, a), RootPath(t, b);
    var i :| 0 <= i < |p| && p[i] == b;
    var j :| 0 <= j < |q| && q[j] == a;
    RootPathSuffix(t, a, i);
    RootPathSuffix(t, b, j);
  }

  /** Two ancestors of the same window lie on one path. */
  lemma OnPathLinear(t: Table, a: WindowId, b: WindowId, w: WindowId)
    requires OnPath(t, a, w) && OnPath(t, b, w)
    ensures OnPath(t, a, b) || OnPath(t, b, a)
  {
    var p := RootPath(t, w);
    var i :| 0 <= i < |p| && p[i] == a;
    var j :| 0 <= j < |p| && p[j] == b;
    RootPathSuffix(t, w, i);
    RootPathSuffix(t, w, j);
    if i <= j {
      assert p[i..][j - i] == b;
    } else {
      assert p[j..][i - j] == a;
    }
  }

  /** A path that no change touches is still the path. */
  lemma {:induction false} PathUnchanged(t: Table, u: Table, w: WindowId)
    requires Reaches(t, w)
    requires forall a :: a in RootPath(t, w) && a != ROOT ==> a in t && a in u && u[a].parent == t[a].parent
    ensures Reaches(u, w) && Depth(u, w) == Depth(t, w) && RootPath(u, w) == RootPath(t, w)
    decreases Depth(t, w)
  {
    if w == ROOT {
      RootPathRoot(t);
      RootPathRoot(u);
    } else {
      assert Hops(t, w, Depth(t, w));
      RootPathStep(t, w);
      PathUnchanged(t, u, t[w].parent);
      RootPathStep(u, w);
    }
  }

  /** The same ids with the same parents. */
  ghost predicate SameParents(t: Table, u: Table) {
    t.Keys == u.Keys && forall w :: w in t ==> u[w].parent == t[w].parent
  }

  lemma PathInTable(t: Table, w: WindowId)
    requires Reaches(t, w) && w in t && ROOT in t
    ensures forall a :: a in RootPath(t, w) ==> a in t
  {
    forall a | a in RootPath(t, w) ensures a in t {
      var i :| 0 <= i < |RootPath(t, w)| && RootPath(t, w)[i] == a;
      RootPathInTable(t, w, i);
    }
  }

  lemma SameParentsSamePaths(t: Table, u: Table, w: WindowId)
    requires Reaches(t, w) && ROOT in t && SameParents(t, u) && w in t
    ensures Reaches(u, w) && Depth(u, w) == Depth(t, w) && RootPath(u, w) == RootPath(t, w)
  {
    PathInTable(t, w);
    PathUnchanged(t, u, w);
  }

  /** Relinking child lists without touching parents. */
  lemma SameParentsWellFormed(t: Table, u: Table)
    requires WellFormed(t) && SameParents(t, u) && Linked(u)
    ensures WellFormed(u)
  {
    forall w | w in u ensures Reaches(u, w) {
      SameParentsSamePaths(t, u, w);
    }
  }

  // ----- Going down any table -----

  /** Below `w`, every way down a child list has fewer than `n` windows: a recursion over the children
      comes to an end. This makes sense for any table, a tree or not. */
  ghost predicate Ends(t: Table, w: WindowId, n: nat)
    decreases n
  {
    w in t ==> n > 0 && forall c :: c in t[w].children ==> Ends(t, c, n - 1)
  }

  lemma {:induction false} TreeEnds(t: Table, w: WindowId, n: nat)
    requires WellFormed(t) && w in t && Reaches(t, w) && n >= |t| - Depth(t, w)
    ensures Ends(t, w, n)
    decreases |t| - Depth(t, w)
  {
    DepthBound(t, w);
    assert WindowOk(t, w);
    forall c | c in t[w].children ensures Ends(t, c, n - 1) {
      assert WindowOk(t, c) && Reaches(t, c);
      RootPathStep(t, c);
      DepthBound(t, c);
      assert Depth(t, c) == Depth(t, w) + 1;
      TreeEnds(t, c, n - 1);
    }
  }
}
