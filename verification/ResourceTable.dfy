/** The server's resource table, as far as windows go: every request edits the window map in place, and
    is proved against the function of the same name on window tables. */
module Resources {
  import opened Ints
  import opened Sequences
  import opened Wrappers
  import opened WindowTree
  import Ops = WindowOps
  import WindowDestroy
  import Stacking
  import Viewability
  import Cascades
  import WindowRuns

  class ResourceTable {
    var windows: Table

    constructor ()
      ensures windows == WindowRuns.INITIAL
    {
      windows := map[ROOT := Window(ROOT, [], 0, 0, 800, 600, 0, Viewable)];
    }

    method CreateWindow(q: Ops.CreateRequest)
      modifies this
      ensures windows == Ops.CreateWindow(old(windows), q)
    {
      var window := Window(q.parent, [], q.x, q.y, q.width, q.height, q.borderWidth, Unmapped);
      if q.parent !in windows {
        windows := windows[q.parent := Ops.PLACEHOLDER];
      }
      var parent := windows[q.parent];
      var insertAt := Ops.CowAwareTop(parent.children);
      windows := windows[q.parent := parent.(children := Ops.InsertAt(parent.children, insertAt, q.window))];
      windows := windows[q.window := window];
    }

    method DestroyWindow(id: WindowId) returns (destroyed: seq<WindowId>)
      modifies this
      ensures (windows, destroyed) == WindowDestroy.DestroyWindow(old(windows), id)
    {
      ghost var spec := WindowDestroy.DestroyWindow(windows, id);
      destroyed := DestroyWindowInner(id, []);
      assert [] + spec.1 == spec.1;
    }

    /** The table shrinks at every effective call, so the recursion ends on any table. */
    method DestroyWindowInner(id: WindowId, destroyed: seq<WindowId>) returns (r: seq<WindowId>)
      modifies this
      ensures windows == WindowDestroy.DestroyWindow(old(windows), id).0
      ensures r == destroyed + WindowDestroy.DestroyWindow(old(windows), id).1
      decreases |windows|
    {
      r := destroyed;
      if id == ROOT || id !in windows {
        assert destroyed + [] == destroyed;
        return;
      }
      var window := windows[id];
      ghost var before := windows;
      windows := windows - {id};
      if window.parent in windows {
        var parent := windows[window.parent];
        windows := windows[window.parent := parent.(children := Ops.Without(parent.children, id))];
      }
      assert windows == WindowDestroy.RemoveOne(before, id);
      r := r + [id];
      ghost var rest := WindowDestroy.DestroyAll(windows, window.children);
      assert WindowDestroy.DestroyWindow(before, id) == (rest.0, [id] + rest.1);
      hide WindowDestroy.DestroyWindow, WindowDestroy.RemoveOne, Ops.Without;
      SeqAssoc(destroyed, [id], rest.1);
      assert window.children[0..] == window.children;
      for i := 0 to |window.children|
        invariant |windows| < |before|
        invariant WindowDestroy.DestroyAll(windows, window.children[i..]).0 == rest.0
        invariant r + WindowDestroy.DestroyAll(windows, window.children[i..]).1 == destroyed + [id] + rest.1
      {
        assert window.children[i..][1..] == window.children[i + 1..];
        ghost var first := WindowDestroy.DestroyWindow(windows, window.children[i]);
        ghost var later := WindowDestroy.DestroyAll(first.0, window.children[i + 1..]);
        SeqAssoc(r, first.1, later.1);
        r := DestroyWindowInner(window.children[i], r);
      }
      assert window.children[|window.children|..] == [];
      assert r + [] == r;
    }

    method IsDescendantOf(candidate: WindowId, ancestor: WindowId) returns (b: bool)
      ensures b == Ops.DescendsFrom(windows, candidate, ancestor, 0)
      ensures WellFormed(windows) ==> (b <==> candidate in windows && StrictAncestor(windows, ancestor, candidate))
    {
      if WellFormed(windows) {
        Ops.IsDescendantCorrect(windows, candidate, ancestor);
      }
      var current := candidate;
      var seen := 0;
      while current != ROOT && seen <= |windows|
        invariant seen <= |windows| + 1
        invariant Ops.DescendsFrom(windows, current, ancestor, seen) == Ops.DescendsFrom(windows, candidate, ancestor, 0)
        decreases |windows| + 1 - seen
      {
        if current !in windows {
          return false;
        }
        var parent := windows[current].parent;
        if parent == ancestor {
          return true;
        }
        if parent == current {
          return false;
        }
        current := parent;
        seen := seen + 1;
      }
      return false;
    }

    method ReparentWindow(w: WindowId, p: WindowId, x: Int16, y: Int16)
      returns (r: Result<Ops.ReparentResult, Ops.ReparentError>)
      modifies this
      ensures (windows, r) == Ops.ReparentWindow(old(windows), w, p, x, y)
    {
      var cycle := false;
      if w != ROOT && w != p {
        cycle := IsDescendantOf(p, w);
      }
      if w == ROOT || w == p || cycle {
        return Err(Ops.BadMatch);
      }
      if w !in windows || p !in windows {
        return Err(Ops.BadWindow);
      }
      var oldParent := windows[w].parent;
      if oldParent in windows {
        var parent := windows[oldParent];
        windows := windows[oldParent := parent.(children := Ops.Without(parent.children, w))];
      }
      var parent := windows[p];
      windows := windows[p := parent.(children := Ops.InsertAt(parent.children, Ops.CowAwareTop(parent.children), w))];
      windows := windows[w := windows[w].(parent := p, x := x, y := y)];
      r := Ok(Ops.ReparentResult(w, oldParent, p, x, y));
    }

    /** Some considered sibling above `index` meets the window there. */
    method AnySiblingOccludesWindow(parentId: WindowId, index: nat, sibling: Option<WindowId>) returns (b: bool)
      ensures b <==> parentId in windows && index < |windows[parentId].children|
                     && Stacking.OccludedAt(windows, windows[parentId].children, index, sibling)
    {
      if parentId !in windows || index >= |windows[parentId].children| {
        return false;
      }
      var kids := windows[parentId].children;
      if kids[index] !in windows || windows[kids[index]].mapState == Unmapped {
        return false;
      }
      for i := 0 to |kids|
        invariant forall j :: index < j < i ==>
                    !(Stacking.Considered(sibling, kids[j]) && Stacking.Meets(windows, kids[index], kids[j]))
      {
        if index < i && (sibling.None? || kids[i] == sibling.value) && kids[i] in windows
           && windows[kids[i]].mapState != Unmapped && Stacking.Overlap(windows[kids[index]], windows[kids[i]]) {
          return true;
        }
      }
      return false;
    }

    /** The window at `index` meets some considered sibling below it. */
    method WindowOccludesAnySibling(parentId: WindowId, index: nat, sibling: Option<WindowId>) returns (b: bool)
      ensures b <==> parentId in windows && index < |windows[parentId].children|
                     && Stacking.OccludesAt(windows, windows[parentId].children, index, sibling)
    {
      if parentId !in windows || index >= |windows[parentId].children| {
        return false;
      }
      var kids := windows[parentId].children;
      if kids[index] !in windows || windows[kids[index]].mapState == Unmapped {
        return false;
      }
      for i := 0 to |kids|
        invariant forall j :: 0 <= j < i && j < index ==>
                    !(Stacking.Considered(sibling, kids[j]) && Stacking.Meets(windows, kids[index], kids[j]))
      {
        if i < index && (sibling.None? || kids[i] == sibling.value) && kids[i] in windows
           && windows[kids[i]].mapState != Unmapped && Stacking.Overlap(windows[kids[index]], windows[kids[i]]) {
          return true;
        }
      }
      return false;
    }

    method ResolveRestackAction(w: WindowId, parentId: WindowId, sibling: Option<WindowId>, mode: int)
      returns (action: Option<Stacking.RestackAction>)
      ensures action == if parentId in windows
                        then Stacking.ResolveRestack(windows, windows[parentId].children, w, sibling, mode) else None
    {
      if parentId !in windows {
        return None;
      }
      var kids := windows[parentId].children;
      var position := Stacking.Position(kids, w);
      if position.None? || (sibling.Some? && sibling.value !in kids) {
        return None;
      }
      var index := position.value;
      match mode
      case 0 => return Some(if sibling.Some? then Stacking.AboveSibling(sibling.value) else Stacking.Top);
      case 1 => return Some(if sibling.Some? then Stacking.BelowSibling(sibling.value) else Stacking.Bottom);
      case 2 =>
        var occluded := AnySiblingOccludesWindow(parentId, index, sibling);
        return Some(if occluded then Stacking.Top else Stacking.NoOp);
      case 3 =>
        var occludes := WindowOccludesAnySibling(parentId, index, sibling);
        return Some(if occludes then Stacking.Bottom else Stacking.NoOp);
      case 4 =>
        var occluded := AnySiblingOccludesWindow(parentId, index, sibling);
        if occluded {
          return Some(Stacking.Top);
        }
        var occludes := WindowOccludesAnySibling(parentId, index, sibling);
        return Some(if occludes then Stacking.Bottom else Stacking.NoOp);
      case _ => return None;
    }

    method RestackWindow(w: WindowId, sibling: Option<WindowId>, mode: Option<int>)
      modifies this
      ensures windows == Stacking.RestackWindow(old(windows), w, sibling, mode)
    {
      if mode.None? || w !in windows || windows[w].parent !in windows {
        return;
      }
      var parentId := windows[w].parent;
      var action := ResolveRestackAction(w, parentId, sibling, mode.value);
      if action.None? {
        return;
      }
      Stacking.ResolvedIsChild(windows, windows[parentId].children, w, sibling, mode.value);
      var parent := windows[parentId];
      hide Stacking.ResolveRestack, Stacking.ApplyRestack;
      var kids := MoveChild(parent.children, w, action.value);
      windows := windows[parentId := parent.(children := kids)];
    }

    /** Remove the window from the child list and insert it where the action says. */
    static method MoveChild(children: seq<WindowId>, w: WindowId, action: Stacking.RestackAction)
      returns (kids: seq<WindowId>)
      requires w in children
      ensures kids == Stacking.ApplyRestack(children, w, action)
    {
      var index := Stacking.Position(children, w).value;
      var rest := Stacking.RemoveAt(children, index);
      match action
      case NoOp => return children;
      case Top => return Ops.InsertAt(rest, Ops.CowAwareTop(rest), w);
      case Bottom => return Ops.InsertAt(rest, 0, w);
      case AboveSibling(s) =>
        var insertAt := Ops.CowAwareTop(rest);
        if s != COW {
          var i := Stacking.Position(rest, s);
          insertAt := if i.Some? then i.value + 1 else |rest|;
        }
        return Ops.InsertAt(rest, insertAt, w);
      case BelowSibling(s) =>
        var i := Stacking.Position(rest, s);
        return Ops.InsertAt(rest, if i.Some? then i.value else 0, w);
    }

    method ConfigureWindow(w: WindowId, x: Option<Int16>, y: Option<Int16>, width: Option<Card16>,
                           height: Option<Card16>, borderWidth: Option<Card16>,
                           sibling: Option<WindowId>, mode: Option<int>) returns (r: Option<Window>)
      modifies this
      ensures windows == WindowRuns.ConfigureWindow(old(windows), w, x, y, width, height, borderWidth, sibling, mode)
      ensures r == if w in windows then Some(windows[w]) else None
    {
      if w !in windows {
        return None;
      }
      var window := windows[w];
      if x.Some? { window := window.(x := x.value); }
      if y.Some? { window := window.(y := y.value); }
      if width.Some? { window := window.(width := width.value); }
      if height.Some? { window := window.(height := height.value); }
      if borderWidth.Some? { window := window.(borderWidth := borderWidth.value); }
      windows := windows[w := window];
      RestackWindow(w, sibling, mode);
      r := if w in windows then Some(windows[w]) else None;
    }

    method CirculateWindow(container: WindowId, direction: int) returns (moved: Option<WindowId>)
      modifies this
      ensures (windows, moved) == Stacking.CirculateWindow(old(windows), container, direction)
    {
      if container !in windows {
        return None;
      }
      var parent := windows[container];
      var kids := parent.children;
      var top := if container == ROOT then Ops.CowAwareTop(kids) else |kids|;
      if top < 2 {
        return None;
      }
      match direction
      case 0 =>
        var last := kids[top - 1];
        kids := Stacking.RemoveAt(kids, top - 1);
        windows := windows[container := parent.(children := Ops.InsertAt(kids, 0, last))];
        return Some(last);
      case 1 =>
        var first := kids[0];
        kids := Stacking.RemoveAt(kids, 0);
        windows := windows[container := parent.(children := Ops.InsertAt(kids, top - 1, first))];
        return Some(first);
      case _ => return None;
    }

    /** `n` bounds how far down the recursion can go; in a rooted tree any number from the size of the table
        on does. */
    method MapWindow(id: WindowId, ghost n: nat) returns (wasUnmapped: bool)
      requires Ends(windows, id, n)
      modifies this
      ensures (windows, wasUnmapped) == Cascades.MapCascade(old(windows), id, n)
      ensures WellFormed(old(windows)) ==> (windows, wasUnmapped) == Viewability.MapWindow(old(windows), id)
    {
      ghost var before := windows;
      if WellFormed(windows) {
        Cascades.MapCascadeIsMap(windows, id, n);
      }
      hide WellFormed, Viewability.MapWindow, Viewability.Promote, Cascades.Cascade;
      if id !in windows {
        return false;
      }
      var window := windows[id];
      var parentViewable := window.parent == id
                            || (window.parent in windows && windows[window.parent].mapState == Viewable);
      wasUnmapped := window.mapState == Unmapped;
      windows := windows[id := window.(mapState := if parentViewable then Viewable else Unviewable)];
      assert windows == Viewability.Marked(before, id);
      Cascades.SameLinksEnds(before, windows, id, n);
      if parentViewable {
        PromoteUnviewableDescendants(id, n);
      }
    }

    method PromoteUnviewableDescendants(id: WindowId, ghost n: nat)
      requires Ends(windows, id, n)
      modifies this
      ensures windows == Cascades.Cascade(old(windows), id, n)
      decreases n, 0
    {
      if id !in windows {
        return;
      }
      ghost var before := windows;
      var children := windows[id].children;
      assert children[0..] == children;
      Cascades.EndsBelow(windows, id, 0, n);
      assert Cascades.Cascade(before, id, n) == Cascades.CascadeList(before, children, n - 1);
      hide Ops.SameLinks, Cascades.CascadeTurn, Cascades.CascadeList, Cascades.Cascade, Cascades.AllEnd, Ends;
      for i := 0 to |children|
        invariant n > 0 && Cascades.AllEnd(windows, children[i..], n - 1)
        invariant Cascades.CascadeList(windows, children[i..], n - 1) == Cascades.Cascade(before, id, n)
      {
        assert children[i..][0] == children[i] && children[i..][1..] == children[i + 1..];
        Cascades.CascadeListStep(windows, children[i..], n - 1);
        PromoteChild(children[i], n - 1);
      }
      assert children[|children|..] == [];
      Cascades.CascadeListEnd(windows, n - 1);
    }

    /** One turn of that loop: show a waiting child, and go down from a Viewable one. */
    method PromoteChild(child: WindowId, ghost n: nat)
      requires Ends(windows, child, n)
      modifies this
      ensures windows == Cascades.CascadeTurn(old(windows), child, n)
      decreases n, 1
    {
      hide Cascades.Cascade, Cascades.CascadeList, Ends;
      ghost var before := windows;
      if child in windows && windows[child].mapState == Unviewable {
        windows := windows[child := windows[child].(mapState := Viewable)];
      }
      assert windows == Cascades.Show(before, child);
      Cascades.SameLinksEnds(before, windows, child, n);
      if child in windows && windows[child].mapState == Viewable {
        PromoteUnviewableDescendants(child, n);
      }
    }

    method UnmapWindow(id: WindowId) returns (wasMapped: bool)
      modifies this
      ensures (windows, wasMapped) == Viewability.UnmapWindow(old(windows), id)
    {
      if id == ROOT || id !in windows {
        return false;
      }
      wasMapped := windows[id].mapState != Unmapped;
      windows := windows[id := windows[id].(mapState := Unmapped)];
    }

    /** Called only on the first claim of the overlay window. */
    method MaterializeCowResource()
      requires COW !in windows
      modifies this
      ensures windows == Ops.MaterializeCow(old(windows))
    {
      var width := if ROOT in windows then windows[ROOT].width else 1;
      var height := if ROOT in windows then windows[ROOT].height else 1;
      windows := windows[COW := Window(ROOT, [], 0, 0, width, height, 0, Viewable)];
      if ROOT in windows {
        var root := windows[ROOT];
        windows := windows[ROOT := root.(children := Ops.InsertAt(root.children, Ops.CowAwareTop(root.children), COW))];
      }
    }

    method DestroyCowResource()
      modifies this
      ensures windows == Ops.DestroyCow(old(windows))
    {
      if ROOT in windows {
        windows := windows[ROOT := windows[ROOT].(children := Ops.Without(windows[ROOT].children, COW))];
      }
      windows := windows - {COW};
    }
  }
}
