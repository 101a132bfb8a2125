/** DestroyWindow: the recursive removal, and what it leaves behind in a rooted tree. */
module WindowDestroy {
  import opened WindowTree
  import opened WindowOps

  // ----- The recursion, on any table -----

  /** `destroy_window_inner`: the table afterwards and the ids in order of removal. */
  function DestroyWindow(t: Table, id: WindowId): (r: (Table, seq<WindowId>))
    ensures |r.0| <= |t|
    decreases |t|, 0
  {
    if id == ROOT || id !in t then (t, [])
    else
      var rest := DestroyAll(RemoveOne(t, id), t[id].children);
      (rest.0, [id] + rest.1)
  }

  function DestroyAll(t: Table, ids: seq<WindowId>): (r: (Table, seq<WindowId>))
    ensures |r.0| <= |t|
    decreases |t|, 1 + |ids|
  {
    if ids == [] then (t, [])
    else
      var first := DestroyWindow(t, ids[0]);
      var rest := DestroyAll(first.0, ids[1..]);
      (rest.0, first.1 + rest.1)
  }

  /** Drop the record and unlink it from its parent, if that is still there. */
  function RemoveOne(t: Table, id: WindowId): (r: Table)
    requires id in t
    ensures |r| < |t|
  {
    assert (t - {id}).Keys == t.Keys - {id};
    var u := t - {id};
    var r := Unlink(u, t[id].parent, id);
    assert r.Keys == u.Keys;
    r
  }

  // ----- Subtrees -----

  ghost function SubtreeAll(t: Table, ids: seq<WindowId>): set<WindowId> {
    set w | w in t && exists c :: c in ids && OnPath(t, c, w)
  }

  lemma ParentDistinct(t: Table, c: WindowId)
    requires WellFormed(t) && c in t && c != ROOT
    ensures Reaches(t, c) && t[c].parent in t && t[c].parent != c && !OnPath(t, c, t[c].parent)
    ensures Depth(t, c) == Depth(t, t[c].parent) + 1
  {
    assert Reaches(t, c) && WindowOk(t, c);
    RootPathStep(t, c);
    if OnPath(t, c, t[c].parent) {
      OnPathSelf(t, t[c].parent);
      OnPathStep(t, t[c].parent, c);
      OnPathAntisymmetric(t, c, t[c].parent);
    }
  }

  /** A window below `id` is `id` or lies below one of its children. */
  lemma SubtreeStep(t: Table, id: WindowId)
    requires WellFormed(t) && id in t
    ensures Subtree(t, id) == {id} + SubtreeAll(t, t[id].children)
  {
    assert WindowOk(t, id) && Reaches(t, id);
    OnPathSelf(t, id);
    forall w | w in Subtree(t, id) ensures w == id || w in SubtreeAll(t, t[id].children) {
      if w != id {
        var c := ChildTowards(t, id, w);
      }
    }
    forall w | w in SubtreeAll(t, t[id].children) ensures w in Subtree(t, id) {
      var c :| c in t[id].children && OnPath(t, c, w);
      assert Reaches(t, c);
      OnPathStep(t, id, c);
      OnPathSelf(t, id);
      OnPathTransitive(t, id, c, w);
    }
  }

  lemma ChildTowards(t: Table, id: WindowId, w: WindowId) returns (c: WindowId)
    requires WellFormed(t) && w in t && OnPath(t, id, w) && w != id
    ensures id in t && c in t[id].children && OnPath(t, c, w)
  {
    var p := RootPath(t, w);
    assert ROOT in t;
    var i :| 0 <= i < |p| && p[i] == id;
    c := p[i - 1];
    RootPathInTable(t, w, i - 1);
    RootPathInTable(t, w, i);
    assert WindowOk(t, c);
  }

  /** Siblings have no descendant in common. */
  lemma SiblingsDisjoint(t: Table, a: WindowId, b: WindowId)
    requires WellFormed(t) && a in t && b in t && a != b && a != ROOT && b != ROOT && t[a].parent == t[b].parent
    ensures Subtree(t, a) !! Subtree(t, b)
  {
    ParentDistinct(t, a);
    ParentDistinct(t, b);
    OnPathStep(t, b, a);
    OnPathStep(t, a, b);
    forall w | w in Subtree(t, a) && w in Subtree(t, b) ensures false {
      OnPathLinear(t, a, b, w);
    }
  }

  // ----- What is left -----

  /** The tree without `gone`; the parent of the destroyed window no longer lists it. */
  function Remnant(t: Table, top: WindowId, gone: set<WindowId>): Table
    requires top in t
  {
    map w | w in t && w !in gone ::
      if w == t[top].parent && top in gone then t[w].(children := Without(t[w].children, top)) else t[w]
  }

  /** The subtree below `id` in pre-order. */
  ghost function Preorder(t: Table, id: WindowId): seq<WindowId>
    requires WellFormed(t) && id in t && Reaches(t, id)
    decreases |t| - Depth(t, id), 1, 0
  {
    DepthBound(t, id);
    ChildrenDeeper(t, id);
    [id] + PreorderAll(t, Depth(t, id), t[id].children)
  }

  ghost function PreorderAll(t: Table, depth: nat, ids: seq<WindowId>): seq<WindowId>
    requires WellFormed(t) && depth < |t|
    requires forall c :: c in ids ==> c in t && Reaches(t, c) && Depth(t, c) == depth + 1
    decreases |t| - depth, 0, |ids|
  {
    if ids == [] then [] else Preorder(t, ids[0]) + PreorderAll(t, depth, ids[1..])
  }

  lemma ChildrenDeeper(t: Table, id: WindowId)
    requires WellFormed(t) && id in t && Reaches(t, id)
    ensures forall c :: c in t[id].children ==> c in t && Reaches(t, c) && Depth(t, c) == Depth(t, id) + 1
  {
    assert WindowOk(t, id);
    forall c | c in t[id].children ensures c in t && Reaches(t, c) && Depth(t, c) == Depth(t, id) + 1 {
      ParentDistinct(t, c);
    }
  }

  lemma {:induction false} DestroyOneCorrect(t: Table, top: WindowId, gone: set<WindowId>, id: WindowId)
    requires WellFormed(t) && top in t && top != ROOT && id in t && id != ROOT && OnPath(t, top, id)
    requires Subtree(t, id) !! gone
    requires if top in gone then t[id].parent in gone else id == top && gone == {}
    ensures DestroyWindow(Remnant(t, top, gone), id)
         == (Remnant(t, top, gone + Subtree(t, id)), Preorder(t, id))
    decreases |t| - Depth(t, id), 1, 0
  {
    assert Reaches(t, id) && ROOT in t;
    hide Remnant, RemoveOne, WellFormed, OnPath;
    DepthBound(t, id);
    ChildrenDeeper(t, id);
    RemoveOneRemnant(t, top, gone, id);
    ChildrenRemain(t, gone, id);
    DestroyAllCorrect(t, top, gone + {id}, id, t[id].children);
  }

  lemma ChildrenRemain(t: Table, gone: set<WindowId>, id: WindowId)
    requires WellFormed(t) && id in t && Subtree(t, id) !! gone
    ensures var kids := t[id].children;
            && NoDups(kids)
            && gone + {id} + SubtreeAll(t, kids) == gone + Subtree(t, id)
            && forall c :: c in kids ==> c in t && c != ROOT && t[c].parent == id && Subtree(t, c) !! gone + {id}
  {
    var kids := t[id].children;
    assert WindowOk(t, id);
    SubtreeStep(t, id);
    forall c | c in kids ensures Subtree(t, c) !! gone + {id} {
      ParentDistinct(t, c);
      assert Subtree(t, c) <= SubtreeAll(t, kids);
    }
  }

  lemma RemoveOneRemnant(t: Table, top: WindowId, gone: set<WindowId>, id: WindowId)
    requires WellFormed(t) && top in t && top != ROOT && id in t && id != ROOT && OnPath(t, top, id)
    requires Subtree(t, id) !! gone
    requires if top in gone then t[id].parent in gone else id == top && gone == {}
    ensures var r := Remnant(t, top, gone);
            id in r && r[id].children == t[id].children && RemoveOne(r, id) == Remnant(t, top, gone + {id})
  {
    ParentDistinct(t, top);
    ParentDistinct(t, id);
    OnPathSelf(t, id);
    assert id in Subtree(t, id);
    assert id != t[top].parent;
  }

  lemma {:induction false} DestroyAllCorrect(t: Table, top: WindowId, gone: set<WindowId>, p: WindowId, ids: seq<WindowId>)
    requires WellFormed(t) && top in t && top != ROOT && top in gone && p in t && OnPath(t, top, p) && p in gone
    requires NoDups(ids) && Depth(t, p) < |t|
    requires forall c :: c in ids ==> c in t && c != ROOT && t[c].parent == p && Reaches(t, c)
                                      && Depth(t, c) == Depth(t, p) + 1 && Subtree(t, c) !! gone
    ensures DestroyAll(Remnant(t, top, gone), ids)
         == (Remnant(t, top, gone + SubtreeAll(t, ids)), PreorderAll(t, Depth(t, p), ids))
    decreases |t| - Depth(t, p), 0, |ids|
  {
    hide Remnant, WellFormed;
    if ids == [] {
      assert gone + SubtreeAll(t, ids) == gone;
    } else {
      var c, tail := ids[0], ids[1..];
      OnPathStep(t, top, c);
      DestroyOneCorrect(t, top, gone, c);
      var gone' := gone + Subtree(t, c);
      forall d | d in tail ensures Subtree(t, d) !! gone' {
        SiblingsDisjoint(t, c, d);
      }
      DestroyAllCorrect(t, top, gone', p, tail);
      SubtreeAllCons(t, gone, ids);
    }
  }

  lemma SubtreeAllCons(t: Table, gone: set<WindowId>, ids: seq<WindowId>)
    requires ids != []
    ensures gone + Subtree(t, ids[0]) + SubtreeAll(t, ids[1..]) == gone + SubtreeAll(t, ids)
  {
    forall w | w in SubtreeAll(t, ids) ensures w in Subtree(t, ids[0]) || w in SubtreeAll(t, ids[1..]) {
      var c :| c in ids && OnPath(t, c, w);
    }
  }

  // ----- The order -----

  /** Every entry comes after its parent, unless that is `above`. */
  ghost predicate ParentsFirst(t: Table, s: seq<WindowId>, above: WindowId)
    requires forall w :: w in s ==> w in t
  {
    forall j :: 0 <= j < |s| ==> t[s[j]].parent == above || t[s[j]].parent in s[..j]
  }

  ghost predicate Enumerates(s: seq<WindowId>, u: set<WindowId>) {
    NoDups(s) && forall w :: w in s <==> w in u
  }

  lemma {:induction false} PreorderFacts(t: Table, id: WindowId)
    requires WellFormed(t) && id in t && Reaches(t, id)
    ensures Enumerates(Preorder(t, id), Subtree(t, id))
    ensures ParentsFirst(t, Preorder(t, id), t[id].parent) && Preorder(t, id) != [] && Preorder(t, id)[0] == id
    decreases |t| - Depth(t, id), 1, 0
  {
    DepthBound(t, id);
    ChildrenDeeper(t, id);
    ChildrenRemain(t, {}, id);
    var kids := t[id].children;
    var all := PreorderAll(t, Depth(t, id), kids);
    PreorderAllFacts(t, id, kids);
    assert id !in SubtreeAll(t, kids) by {
      if c :| c in kids && OnPath(t, c, id) {
        ParentDistinct(t, c);
      }
    }
    PrependNoDups(id, all);
    ParentsFirstPrepend(t, id, all);
  }

  lemma ParentsFirstPrepend(t: Table, id: WindowId, s: seq<WindowId>)
    requires id in t && forall w :: w in s ==> w in t
    requires ParentsFirst(t, s, id)
    ensures ParentsFirst(t, [id] + s, t[id].parent)
  {
    var r := [id] + s;
    forall j | 0 < j < |r| ensures t[r[j]].parent in r[..j] {
      assert r[j] == s[j - 1] && r[..j] == [id] + s[..j - 1];
    }
  }

  lemma ParentsFirstConcat(t: Table, a: seq<WindowId>, b: seq<WindowId>, above: WindowId)
    requires forall w :: w in a + b ==> w in t
    requires (forall w :: w in a ==> w in t) && (forall w :: w in b ==> w in t)
    requires ParentsFirst(t, a, above) && ParentsFirst(t, b, above)
    ensures ParentsFirst(t, a + b, above)
  {
    var r := a + b;
    forall j | 0 <= j < |r| ensures t[r[j]].parent == above || t[r[j]].parent in r[..j] {
      if j < |a| {
        assert r[j] == a[j] && r[..j] == a[..j];
      } else {
        assert r[j] == b[j - |a|] && r[..j] == a + b[..j - |a|];
      }
    }
  }

  lemma EnumeratesConcat(a: seq<WindowId>, b: seq<WindowId>, u: set<WindowId>, v: set<WindowId>)
    requires Enumerates(a, u) && Enumerates(b, v) && u !! v
    ensures Enumerates(a + b, u + v)
  {
    var r := a + b;
    forall i, j | 0 <= i < j < |r| ensures r[i] != r[j] {
      if i < |a| <= j {
        assert r[i] in a && r[j] in b;
      }
    }
  }

  lemma {:induction false} PreorderAllFacts(t: Table, p: WindowId, ids: seq<WindowId>)
    requires WellFormed(t) && p in t && Reaches(t, p) && Depth(t, p) < |t|
    requires NoDups(ids)
    requires forall c :: c in ids ==> c in t && c != ROOT && t[c].parent == p && Reaches(t, c)
                                      && Depth(t, c) == Depth(t, p) + 1
    ensures Enumerates(PreorderAll(t, Depth(t, p), ids), SubtreeAll(t, ids))
    ensures ParentsFirst(t, PreorderAll(t, Depth(t, p), ids), p)
    decreases |t| - Depth(t, p), 0, |ids|
  {
    if ids == [] {
    } else {
      var c, tail := ids[0], ids[1..];
      var first, rest := Preorder(t, c), PreorderAll(t, Depth(t, p), tail);
      PreorderFacts(t, c);
      PreorderAllFacts(t, p, tail);
      SubtreeAllCons(t, {}, ids);
      forall w | w in Subtree(t, c) ensures w !in SubtreeAll(t, tail) {
        if d :| d in tail && OnPath(t, d, w) {
          SiblingsDisjoint(t, c, d);
        }
      }
      EnumeratesConcat(first, rest, Subtree(t, c), SubtreeAll(t, tail));
      ParentsFirstConcat(t, first, rest, p);
    }
  }

  // ----- The whole request -----

  lemma RemnantKeepsTree(t: Table, top: WindowId)
    requires WellFormed(t) && top in t && top != ROOT
    ensures WellFormed(Remnant(t, top, Subtree(t, top)))
  {
    var gone := Subtree(t, top);
    var r := Remnant(t, top, gone);
    ParentDistinct(t, top);
    OnPathSelf(t, top);
    RootPathRoot(t);
    assert WindowOk(t, ROOT);
    forall w | w in r ensures WindowOk(r, w) {
      RemnantWindowOk(t, top, w);
    }
    forall w | w in r ensures Reaches(r, w) {
      RemnantPath(t, top, w);
    }
  }

  lemma RemnantPath(t: Table, top: WindowId, w: WindowId)
    requires WellFormed(t) && top in t && top != ROOT && w in t && w !in Subtree(t, top)
    ensures SamePath(t, Remnant(t, top, Subtree(t, top)), w)
  {
    var r := Remnant(t, top, Subtree(t, top));
    assert Reaches(t, w);
    PathInTable(t, w);
    forall a | a in RootPath(t, w) ensures a in r && r[a].parent == t[a].parent {
      assert OnPath(t, a, w);
      if OnPath(t, top, a) {
        OnPathTransitive(t, top, a, w);
      }
    }
    PathUnchanged(t, r, w);
  }

  lemma RemnantWindowOk(t: Table, top: WindowId, w: WindowId)
    requires WellFormed(t) && top in t && top != ROOT && w in t && w !in Subtree(t, top)
    ensures w in Remnant(t, top, Subtree(t, top)) && WindowOk(Remnant(t, top, Subtree(t, top)), w)
  {
    var gone := Subtree(t, top);
    var r := Remnant(t, top, gone);
    assert WindowOk(t, w) && Reaches(t, w);
    ParentDistinct(t, top);
    OnPathSelf(t, top);
    WithoutNoDups(t[w].children, top);
    if w != ROOT {
      OnPathStep(t, top, w);
      assert WindowOk(t, t[w].parent);
    }
    forall c | c in r[w].children ensures c in r {
      assert c in t[w].children && c != top;
      assert Reaches(t, c);
      OnPathStep(t, top, c);
    }
  }

  lemma RemnantIs(t: Table, id: WindowId)
    requires WellFormed(t) && id in t && id != ROOT && id in Subtree(t, id)
    ensures Remnant(t, id, {}) == t
    ensures var r := Remnant(t, id, Subtree(t, id));
            && r.Keys == t.Keys - Subtree(t, id)
            && forall w :: w in r ==>
                 w !in Subtree(t, id)
                 && r[w] == if w == t[id].parent then t[w].(children := Without(t[w].children, id)) else t[w]
  {
  }

  /** DestroyWindow on a rooted tree: exactly the subtree goes, each window once, parents before
      children; every other record stays as it was, but for the one child list that named the window;
      and what is left is a rooted tree with the same paths. */
  lemma DestroyWindowCorrect(t: Table, id: WindowId)
    requires WellFormed(t) && id in t && id != ROOT && Reaches(t, id)
    ensures var (u, gone) := DestroyWindow(t, id);
            && WellFormed(u)
            && u.Keys == t.Keys - Subtree(t, id)
            && Enumerates(gone, Subtree(t, id)) && gone != [] && gone[0] == id && ParentsFirst(t, gone, t[id].parent)
            && gone == Preorder(t, id)
            && (forall w :: w in u ==>
                  u[w] == if w == t[id].parent then t[w].(children := Without(t[w].children, id)) else t[w])
            && (forall w {:trigger SamePath(t, u, w)} :: w in u ==> SamePath(t, u, w))
  {
    var r := Remnant(t, id, Subtree(t, id));
    OnPathSelf(t, id);
    RemnantIs(t, id);
    assert t[id].parent != id by {
      ParentDistinct(t, id);
    }
    hide DestroyWindow, Preorder, ParentsFirst, Enumerates, WellFormed, Remnant, Subtree, OnPath, SamePath, Reaches;
    assert DestroyWindow(Remnant(t, id, {}), id) == (Remnant(t, id, {} + Subtree(t, id)), Preorder(t, id)) by {
      DestroyOneCorrect(t, id, {}, id);
    }
    assert {} + Subtree(t, id) == Subtree(t, id);
    PreorderFacts(t, id);
    RemnantKeepsTree(t, id);
    forall w | w in r ensures SamePath(t, r, w) {
      RemnantPath(t, id, w);
    }
  }
}
