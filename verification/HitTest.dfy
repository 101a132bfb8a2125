/** Finding the window under the pointer, and carrying a device event up to a window that wants it. */
module HitTest {
  import opened Ints
  import opened Wrappers
  import opened Regions
  import opened ShapeCombine
  import opened WindowTree
  import opened WindowDestroy

  /** Input shapes by window; a window without an entry takes input everywhere. */
  type Shapes = map<WindowId, seq<RegionRect>>

  /** A window and a point in its coordinates. */
  datatype Hit = Hit(window: WindowId, x: Int16, y: Int16)

  predicate InputContains(shapes: Shapes, w: WindowId, x: Int16, y: Int16) {
    w in shapes ==> Covers(shapes[w], x, y)
  }

  /** `i16::try_from(v).unwrap_or(i16::MAX)` */
  function Extent(v: Card16): Int16 {
    if v <= I16_MAX then v else I16_MAX
  }

  /** The point lies in the rectangle of a mapped window. */
  predicate Inside(w: Window, x: Int16, y: Int16) {
    w.mapState != Unmapped && 0 <= x < Extent(w.width) && 0 <= y < Extent(w.height)
  }

  function Translate(w: Window, x: Int16, y: Int16): (Int16, Int16) {
    (WrappingSub(x, w.x), WrappingSub(y, w.y))
  }

  function HitChild(t: Table, shapes: Shapes, c: WindowId, x: Int16, y: Int16): Option<Hit> {
    if c !in t then None
    else
      var (cx, cy) := Translate(t[c], x, y);
      if Inside(t[c], cx, cy) && InputContains(shapes, c, cx, cy) then Some(Hit(c, cx, cy)) else None
  }

  method WindowInputContains(shapes: Shapes, w: WindowId, x: Int16, y: Int16) returns (b: bool)
    ensures b == InputContains(shapes, w, x, y)
  {
    if w !in shapes {
      return true;
    }
    for i := 0 to |shapes[w]|
      invariant forall j :: 0 <= j < i ==> !shapes[w][j].Has(x, y)
    {
      var r := shapes[w][i];
      if x >= r.x && y >= r.y && x as int < r.Right() && y as int < r.Bottom() {
        assert r in shapes[w] && r.Has(x, y);
        return true;
      }
    }
    return false;
  }

  method HitTestChild(t: Table, shapes: Shapes, c: WindowId, x: Int16, y: Int16) returns (r: Option<Hit>)
    ensures r == HitChild(t, shapes, c, x, y)
  {
    if c !in t || t[c].mapState == Unmapped {
      return None;
    }
    var cx := WrappingSub(x, t[c].x);
    var cy := WrappingSub(y, t[c].y);
    if cx < 0 || cy < 0 || cx >= Extent(t[c].width) || cy >= Extent(t[c].height) {
      return None;
    }
    var wanted := WindowInputContains(shapes, c, cx, cy);
    return if wanted then Some(Hit(c, cx, cy)) else None;
  }

  // ----- Which points belong to a child -----

  /** One of the first 32767 places from `start` on, at most `size`; or `v` is 65536 places before one, which
      the wrapping subtraction cannot tell from it. */
  predicate Spans(start: int, size: nat, v: int) {
    start <= v < start + Min(size, I16_MAX) || start <= v + 0x1_0000 < start + Min(size, I16_MAX)
  }

  function Offset(start: int, v: int): int {
    if start <= v then v - start else v + 0x1_0000 - start
  }

  /** The child is mapped, its rectangle has the point, and so has its input shape, if there is one. */
  ghost predicate TakesPoint(t: Table, shapes: Shapes, c: WindowId, x: Int16, y: Int16) {
    && c in t && t[c].mapState != Unmapped
    && Spans(t[c].x, t[c].width, x) && Spans(t[c].y, t[c].height, y)
    && (c in shapes ==> Covers(shapes[c], Offset(t[c].x, x), Offset(t[c].y, y)))
  }

  /** `h` is the point in the coordinates of `c`. */
  ghost predicate IsHitOf(t: Table, c: WindowId, x: Int16, y: Int16, h: Hit) {
    c in t && h.window == c && h.x as int == Offset(t[c].x, x) && h.y as int == Offset(t[c].y, y)
  }

  lemma SubtractionSpans(v: Int16, start: Int16, size: Card16)
    ensures 0 <= WrappingSub(v, start) < Extent(size) <==> Spans(start, size, v)
    ensures 0 <= WrappingSub(v, start) ==> WrappingSub(v, start) == Offset(start, v)
  {
    var d := v as int - start as int;
    if d < -0x8000 {
      assert WrapI16(d) == d + 0x1_0000;
    } else if d > I16_MAX {
      assert WrapI16(d) == d - 0x1_0000;
    } else {
      assert WrapI16(d) == d;
    }
  }

  /** For every child and every point: hit or not, and where. */
  lemma HitChildIff(t: Table, shapes: Shapes, c: WindowId, x: Int16, y: Int16)
    ensures HitChild(t, shapes, c, x, y).Some? <==> TakesPoint(t, shapes, c, x, y)
    ensures HitChild(t, shapes, c, x, y).Some? ==> IsHitOf(t, c, x, y, HitChild(t, shapes, c, x, y).value)
  {
    if c in t {
      SubtractionSpans(x, t[c].x, t[c].width);
      SubtractionSpans(y, t[c].y, t[c].height);
      hide WrapI16, WrappingSub, Covers, Spans, Offset;
    }
  }

  predicate InRectangle(w: Window, x: int, y: int) {
    w.x <= x < w.x + w.width && w.y <= y < w.y + w.height
  }

  /** The side ends within the i16 range, and is not cut at 32767 places either, unless the range ends first. */
  predicate SideFits(start: Int16, size: Card16) {
    start + Min(size, I16_MAX) <= I16_MAX + 1 && (size <= I16_MAX || start >= 1)
  }

  lemma SideFitsIff(start: Int16, size: Card16)
    ensures SideFits(start, size) <==> forall v: Int16 :: Spans(start, size, v) <==> start <= v < start + size
  {
    if start + Min(size, I16_MAX) > I16_MAX + 1 {
      assert Spans(start, size, -0x8000);
    } else if size > I16_MAX && start < 1 {
      assert !Spans(start, size, start + I16_MAX);
    }
  }

  /** The law of the plain rectangle holds at every point exactly when both sides fit, or nothing is there. */
  lemma RectangleLawIff(t: Table, shapes: Shapes, c: WindowId)
    requires c in t && t[c].mapState != Unmapped && c !in shapes
    ensures (forall x: Int16, y: Int16 :: HitChild(t, shapes, c, x, y).Some? <==> InRectangle(t[c], x, y))
       <==> t[c].width == 0 || t[c].height == 0
            || (SideFits(t[c].x, t[c].width) && SideFits(t[c].y, t[c].height))
  {
    var w := t[c];
    forall x: Int16, y: Int16 { HitChildIff(t, shapes, c, x, y); }
    SideFitsIff(w.x, w.width);
    SideFitsIff(w.y, w.height);
    hide HitChild, SideFits;
    if w.width > 0 && w.height > 0 {
      if !SideFits(w.x, w.width) {
        var x: Int16 :| Spans(w.x, w.width, x) != (w.x <= x < w.x + w.width);
        assert HitChild(t, shapes, c, x, w.y).Some? != InRectangle(w, x, w.y);
      } else if !SideFits(w.y, w.height) {
        var y: Int16 :| Spans(w.y, w.height, y) != (w.y <= y < w.y + w.height);
        assert HitChild(t, shapes, c, w.x, y).Some? != InRectangle(w, w.x, y);
      }
    }
  }

  /** A mapped child that ends within the i16 range, with sides up to 32767, is hit exactly inside its
      rectangle where its input shape has the point; an unmapped one never. */
  lemma OrdinaryChildHit(t: Table, shapes: Shapes, c: WindowId, x: Int16, y: Int16)
    requires c in t && t[c].width <= I16_MAX && t[c].height <= I16_MAX
    requires t[c].x + t[c].width <= I16_MAX + 1 && t[c].y + t[c].height <= I16_MAX + 1
    ensures HitChild(t, shapes, c, x, y).Some?
       <==> t[c].mapState != Unmapped && InRectangle(t[c], x, y)
            && (c in shapes ==> Covers(shapes[c], x - t[c].x, y - t[c].y))
  {
    HitChildIff(t, shapes, c, x, y);
    hide Covers;
  }

  // ----- The topmost child -----

  /** `r` is the topmost child of the list that takes the point, with the point in its coordinates; `None` only
      if no child does. */
  ghost predicate IsTopmost(t: Table, shapes: Shapes, kids: seq<WindowId>, x: Int16, y: Int16, r: Option<Hit>) {
    match r
    case None => forall j :: 0 <= j < |kids| ==> !TakesPoint(t, shapes, kids[j], x, y)
    case Some(h) => exists i: nat :: i < |kids| && TopAt(t, shapes, kids, x, y, i, h)
  }

  /** The child at position `i` takes the point, and none above it does. */
  ghost predicate TopAt(t: Table, shapes: Shapes, kids: seq<WindowId>, x: Int16, y: Int16, i: nat, h: Hit)
    requires i < |kids|
  {
    && TakesPoint(t, shapes, kids[i], x, y) && IsHitOf(t, kids[i], x, y, h)
    && forall j :: i < j < |kids| ==> !TakesPoint(t, shapes, kids[j], x, y)
  }

  function TopHit(t: Table, shapes: Shapes, kids: seq<WindowId>, x: Int16, y: Int16): (r: Option<Hit>)
    ensures r.Some? ==> r.value.window in kids && r.value.window in t
  {
    if kids == [] then None
    else
      var last := HitChild(t, shapes, kids[|kids| - 1], x, y);
      if last.Some? then last else TopHit(t, shapes, kids[..|kids| - 1], x, y)
  }

  lemma TopAtPrefix(t: Table, shapes: Shapes, kids: seq<WindowId>, n: nat, x: Int16, y: Int16, i: nat, h: Hit)
    requires n < |kids| && i < n && (forall j :: n <= j < |kids| ==> !TakesPoint(t, shapes, kids[j], x, y))
    ensures TopAt(t, shapes, kids[..n], x, y, i, h) <==> TopAt(t, shapes, kids, x, y, i, h)
  {
    hide TakesPoint, IsHitOf;
    assert forall j :: 0 <= j < n ==> kids[..n][j] == kids[j];
  }

  lemma LastMisses(t: Table, shapes: Shapes, kids: seq<WindowId>, x: Int16, y: Int16, r: Option<Hit>)
    requires kids != [] && !TakesPoint(t, shapes, kids[|kids| - 1], x, y)
    ensures IsTopmost(t, shapes, kids, x, y, r) <==> IsTopmost(t, shapes, kids[..|kids| - 1], x, y, r)
  {
    hide TakesPoint, IsHitOf;
    var n := |kids| - 1;
    if r.Some? {
      forall i: nat | i < n { TopAtPrefix(t, shapes, kids, n, x, y, i, r.value); }
      assert !TopAt(t, shapes, kids, x, y, n, r.value);
      hide TopAt;
    } else {
      assert forall j :: 0 <= j < n ==> kids[..n][j] == kids[j];
    }
  }

  lemma LastTakes(t: Table, shapes: Shapes, kids: seq<WindowId>, x: Int16, y: Int16, r: Option<Hit>)
    requires kids != [] && TakesPoint(t, shapes, kids[|kids| - 1], x, y)
    ensures IsTopmost(t, shapes, kids, x, y, r) <==> r.Some? && IsHitOf(t, kids[|kids| - 1], x, y, r.value)
  {
    hide TakesPoint, IsHitOf;
    var n := |kids| - 1;
    if r.Some? && IsHitOf(t, kids[n], x, y, r.value) {
      assert TopAt(t, shapes, kids, x, y, n, r.value);
    }
  }

  /** There is only one topmost child, and this is it. */
  lemma {:induction false} TopHitIsTopmost(t: Table, shapes: Shapes, kids: seq<WindowId>, x: Int16, y: Int16, r: Option<Hit>)
    ensures IsTopmost(t, shapes, kids, x, y, r) <==> r == TopHit(t, shapes, kids, x, y)
    decreases |kids|
  {
    if kids == [] {
    } else {
      var n := |kids| - 1;
      HitChildIff(t, shapes, kids[n], x, y);
      hide HitChild, IsTopmost, TakesPoint, Offset;
      if TakesPoint(t, shapes, kids[n], x, y) {
        LastTakes(t, shapes, kids, x, y, r);
      } else {
        LastMisses(t, shapes, kids, x, y, r);
        TopHitIsTopmost(t, shapes, kids[..n], x, y, r);
      }
    }
  }

  method HitTestChildren(t: Table, shapes: Shapes, parent: WindowId, x: Int16, y: Int16) returns (r: Option<Hit>)
    ensures r == if parent in t then TopHit(t, shapes, t[parent].children, x, y) else None
  {
    hide HitChild;
    if parent !in t {
      return None;
    }
    var kids := t[parent].children;
    var i := |kids|;
    assert kids[..|kids|] == kids;
    while i > 0
      invariant 0 <= i <= |kids|
      invariant TopHit(t, shapes, kids[..i], x, y) == TopHit(t, shapes, kids, x, y)
    {
      i := i - 1;
      assert kids[..i + 1][..i] == kids[..i];
      var hit := HitTestChild(t, shapes, kids[i], x, y);
      if hit.Some? {
        return hit;
      }
    }
    return None;
  }

  // ----- The descent -----

  ghost predicate Placed(t: Table, w: WindowId) {
    w in t && Reaches(t, w)
  }

  lemma ChildIsDeeper(t: Table, w: WindowId, c: WindowId)
    requires WellFormed(t) && Placed(t, w) && c in t[w].children
    ensures Placed(t, c) && c != ROOT && t[c].parent == w && Depth(t, w) < Depth(t, c) < |t|
  {
    assert WindowOk(t, w);
    ParentDistinct(t, c);
    DepthBound(t, c);
  }

  /** Every window from `h` down to the deepest one that is hit. */
  ghost function Descent(t: Table, shapes: Shapes, h: Hit): (d: seq<Hit>)
    requires WellFormed(t) && Placed(t, h.window)
    ensures d != [] && d[0] == h && Placed(t, d[|d| - 1].window)
    decreases |t| - Depth(t, h.window)
  {
    match TopHit(t, shapes, t[h.window].children, h.x, h.y)
    case None => [h]
    case Some(c) =>
      ChildIsDeeper(t, h.window, c.window);
      [h] + Descent(t, shapes, c)
  }

  ghost function Deepest(t: Table, shapes: Shapes, h: Hit): Hit
    requires WellFormed(t) && Placed(t, h.window)
  {
    Descent(t, shapes, h)[|Descent(t, shapes, h)| - 1]
  }

  /** The same on any table on which the recursion over the children ends, within `n` windows. */
  ghost function DescentWithin(t: Table, shapes: Shapes, h: Hit, n: nat): (d: seq<Hit>)
    requires Ends(t, h.window, n)
    ensures d != [] && d[0] == h
    decreases n
  {
    if h.window !in t then [h]
    else
      match TopHit(t, shapes, t[h.window].children, h.x, h.y)
      case None => [h]
      case Some(c) => [h] + DescentWithin(t, shapes, c, n - 1)
  }

  lemma {:induction false} DescentInTree(t: Table, shapes: Shapes, h: Hit, n: nat)
    requires WellFormed(t) && Placed(t, h.window) && Ends(t, h.window, n)
    ensures DescentWithin(t, shapes, h, n) == Descent(t, shapes, h)
    decreases n
  {
    hide WellFormed, TopHit;
    match TopHit(t, shapes, t[h.window].children, h.x, h.y) {
      case None =>
      case Some(c) =>
        ChildIsDeeper(t, h.window, c.window);
        DescentInTree(t, shapes, c, n - 1);
    }
  }

  ghost function LastHit(d: seq<Hit>): Hit
    requires d != []
  {
    d[|d| - 1]
  }

  /** `best` is an out-parameter that every level overwrites. */
  method PointerTargetAtInner(t: Table, shapes: Shapes, parent: WindowId, x: Int16, y: Int16, best: Hit, ghost n: nat)
    returns (r: Hit)
    requires Ends(t, parent, n) && best == Hit(parent, x, y)
    ensures r == LastHit(DescentWithin(t, shapes, best, n))
    decreases n
  {
    r := best;
    var hit := HitTestChildren(t, shapes, parent, x, y);
    if hit.None? {
      return;
    }
    r := hit.value;
    r := PointerTargetAtInner(t, shapes, hit.value.window, hit.value.x, hit.value.y, r, n - 1);
  }

  /** `n` bounds how far down the recursion can go; in a rooted tree any number from the size of the table on
      does. */
  method PointerTargetAt(t: Table, shapes: Shapes, topLevel: WindowId, x: Int16, y: Int16, ghost n: nat)
    returns (r: Option<Hit>)
    requires Ends(t, topLevel, n)
    ensures r == if topLevel in t && t[topLevel].mapState != Unmapped
                 then Some(LastHit(DescentWithin(t, shapes, Hit(topLevel, x, y), n))) else None
    ensures WellFormed(t) && r.Some? ==>
              Placed(t, topLevel) && r == Some(Deepest(t, shapes, Hit(topLevel, x, y)))
  {
    if topLevel !in t || t[topLevel].mapState == Unmapped {
      return None;
    }
    if WellFormed(t) {
      assert Reaches(t, topLevel);
      DescentInTree(t, shapes, Hit(topLevel, x, y), n);
    }
    hide WellFormed;
    var best := PointerTargetAtInner(t, shapes, topLevel, x, y, Hit(topLevel, x, y), n);
    return Some(best);
  }

  /** One step of the descent at position `i`: the topmost child hit, in its own coordinates. */
  ghost predicate StepsDown(t: Table, shapes: Shapes, d: seq<Hit>, i: nat)
    requires i + 1 < |d|
  {
    && d[i].window in t && d[i + 1].window in t
    && t[d[i + 1].window].parent == d[i].window && d[i + 1].window != ROOT
    && IsTopmost(t, shapes, t[d[i].window].children, d[i].x, d[i].y, Some(d[i + 1]))
    && IsHitOf(t, d[i + 1].window, d[i].x, d[i].y, d[i + 1])
  }

  /** The result of the hit test is reached by stepping to the topmost child hit, and has none itself. */
  lemma {:induction false} DescentCorrect(t: Table, shapes: Shapes, h: Hit)
    requires WellFormed(t) && Placed(t, h.window)
    ensures var d := Descent(t, shapes, h);
            && (forall i :: 0 <= i < |d| - 1 ==> StepsDown(t, shapes, d, i))
            && IsTopmost(t, shapes, t[d[|d| - 1].window].children, d[|d| - 1].x, d[|d| - 1].y, None)
    decreases |t| - Depth(t, h.window)
  {
    var d := Descent(t, shapes, h);
    var kids := t[h.window].children;
    var c := TopHit(t, shapes, kids, h.x, h.y);
    TopHitIsTopmost(t, shapes, kids, h.x, h.y, c);
    if c.Some? {
      ChildIsDeeper(t, h.window, c.value.window);
      DescentCorrect(t, shapes, c.value);
      var rest := Descent(t, shapes, c.value);
      assert d[1..] == rest;
      forall i | 0 <= i < |d| - 1 ensures StepsDown(t, shapes, d, i) {
        if i == 0 {
          HitCoordinates(t, shapes, kids, h.x, h.y);
        } else {
          assert StepsDown(t, shapes, rest, i - 1);
        }
      }
    }
  }

  lemma HitChildIsHit(t: Table, shapes: Shapes, c: WindowId, x: Int16, y: Int16)
    ensures var h := HitChild(t, shapes, c, x, y); h.Some? ==> IsHitOf(t, h.value.window, x, y, h.value)
  {
    HitChildIff(t, shapes, c, x, y);
  }

  lemma {:induction false} HitCoordinates(t: Table, shapes: Shapes, kids: seq<WindowId>, x: Int16, y: Int16)
    ensures var c := TopHit(t, shapes, kids, x, y);
            c.Some? ==> IsHitOf(t, c.value.window, x, y, c.value)
    decreases |kids|
  {
    hide HitChild, IsHitOf;
    if kids == [] {
    } else {
      HitChildIsHit(t, shapes, kids[|kids| - 1], x, y);
      HitCoordinates(t, shapes, kids[..|kids| - 1], x, y);
    }
  }

  // ----- Propagation -----

  const MAX_PROBES: nat := 256

  /** Walk up from `h` until a window has a subscriber: at most `probes` windows are asked. */
  function Propagate(t: Table, subscribed: set<WindowId>, h: Hit, probes: nat): Option<Hit>
    decreases probes
  {
    if probes == 0 then None
    else if h.window in subscribed then Some(h)
    else if h.window !in t || t[h.window].parent == h.window then None
    else
      var w := t[h.window];
      Propagate(t, subscribed, Hit(w.parent, WrappingAdd(h.x, w.x), WrappingAdd(h.y, w.y)), probes - 1)
  }

  method PointerPropagationTarget(t: Table, subscribed: set<WindowId>, start: Hit) returns (r: Option<Hit>)
    ensures r == Propagate(t, subscribed, start, MAX_PROBES)
  {
    var current, x, y := start.window, start.x, start.y;
    for i := 0 to MAX_PROBES
      invariant Propagate(t, subscribed, Hit(current, x, y), MAX_PROBES - i) == Propagate(t, subscribed, start, MAX_PROBES)
    {
      if current in subscribed {
        return Some(Hit(current, x, y));
      }
      if current !in t || t[current].parent == current {
        return None;
      }
      x := WrappingAdd(x, t[current].x);
      y := WrappingAdd(y, t[current].y);
      current := t[current].parent;
    }
    return None;
  }

  /** The wrapping addition takes the offset back, whatever the values. */
  lemma WrapsCancel(start: Int16, v: Int16, offset: Int16)
    requires offset as int == Offset(start, v)
    ensures WrappingAdd(offset, start) == v
  {
  }

  /** The point `k` windows further up, in the coordinates of the window there. */
  function Climb(t: Table, h: Hit, k: nat): Hit
    decreases k
  {
    if k == 0 || h.window !in t then h
    else
      var w := t[h.window];
      Climb(t, Hit(w.parent, WrappingAdd(h.x, w.x), WrappingAdd(h.y, w.y)), k - 1)
  }

  /** `k` is the nearest window on the way up that has a subscriber. */
  ghost predicate NearestSubscriber(path: seq<WindowId>, subscribed: set<WindowId>, k: nat) {
    k < |path| && path[k] in subscribed && forall j :: 0 <= j < k ==> path[j] !in subscribed
  }

  /** The loop stops at the nearest ancestor-or-self that has a subscriber, if that is among the windows it
      may ask, and has then carried the point up to it. */
  lemma {:induction false} PropagateNearest(t: Table, subscribed: set<WindowId>, h: Hit, k: nat, probes: nat)
    requires WellFormed(t) && Placed(t, h.window) && NearestSubscriber(RootPath(t, h.window), subscribed, k)
    ensures Propagate(t, subscribed, h, probes) == if k < probes then Some(Climb(t, h, k)) else None
    ensures Climb(t, h, k).window == RootPath(t, h.window)[k]
    decreases k
  {
    if k == 0 {
      assert RootPath(t, h.window)[0] == h.window;
    } else {
      var up := StepUp(t, h);
      assert RootPath(t, up.window) == RootPath(t, h.window)[1..];
      PropagateNearest(t, subscribed, up, k - 1, if probes == 0 then 0 else probes - 1);
    }
  }

  /** One turn of the loop below the root. */
  lemma StepUp(t: Table, h: Hit) returns (up: Hit)
    requires WellFormed(t) && Placed(t, h.window) && |RootPath(t, h.window)| > 1
    ensures up == Climb(t, h, 1) && up.window == t[h.window].parent != h.window && Placed(t, up.window)
    ensures RootPath(t, h.window) == [h.window] + RootPath(t, up.window)
    ensures forall k: nat :: k > 0 ==> Climb(t, h, k) == Climb(t, up, k - 1)
  {
    var w := t[h.window];
    up := Hit(w.parent, WrappingAdd(h.x, w.x), WrappingAdd(h.y, w.y));
    RootPathRoot(t);
    RootPathStep(t, h.window);
    ParentDistinct(t, h.window);
    assert WindowOk(t, h.window);
    assert Climb(t, h, 1) == Climb(t, up, 0);
  }

  lemma {:induction false} PropagateNobody(t: Table, subscribed: set<WindowId>, h: Hit, probes: nat)
    requires WellFormed(t) && Placed(t, h.window)
    requires forall w :: w in RootPath(t, h.window) ==> w !in subscribed
    ensures Propagate(t, subscribed, h, probes) == None
    decreases probes
  {
    if probes == 0 {
    } else {
      assert RootPath(t, h.window)[0] == h.window;
      if h.window == ROOT {
        assert WindowOk(t, ROOT);
      } else {
        RootPathStep(t, h.window);
        var up := StepUp(t, h);
        PropagateNobody(t, subscribed, up, probes - 1);
      }
    }
  }

  /** Going up from a window of the descent gives back the window and point it was entered from. */
  lemma {:induction false} ClimbRetraces(t: Table, shapes: Shapes, h: Hit, k: nat, i: nat)
    requires WellFormed(t) && Placed(t, h.window) && i <= k < |Descent(t, shapes, h)|
    ensures var d := Descent(t, shapes, h); Climb(t, d[k], k - i) == d[i]
    decreases k - i
  {
    var d := Descent(t, shapes, h);
    DescentCorrect(t, shapes, h);
    if i == k {
    } else {
      assert StepsDown(t, shapes, d, k - 1);
      var w := t[d[k].window];
      WrapsCancel(w.x, d[k - 1].x, d[k].x);
      WrapsCancel(w.y, d[k - 1].y, d[k].y);
      assert Climb(t, d[k], k - i) == Climb(t, d[k - 1], k - 1 - i);
      ClimbRetraces(t, shapes, h, k - 1, i);
    }
  }

  lemma {:induction false} ClimbTwice(t: Table, h: Hit, k: nat, l: nat)
    ensures Climb(t, h, k + l) == Climb(t, Climb(t, h, k), l)
    decreases k
  {
    if k == 0 || h.window !in t {
    } else {
      var w := t[h.window];
      ClimbTwice(t, Hit(w.parent, WrappingAdd(h.x, w.x), WrappingAdd(h.y, w.y)), k - 1, l);
    }
  }

  /** A device event at a point of any window: the hit test descends, and the propagation comes back up to
      the nearest window with a subscriber, if fewer than 256 windows lie between. Within the descent it
      reports the point in exactly the coordinates the descent had there; above, it carries the original
      point on. */
  lemma HitThenPropagate(t: Table, shapes: Shapes, subscribed: set<WindowId>, h: Hit, k: nat)
    requires WellFormed(t) && Placed(t, h.window)
    requires NearestSubscriber(RootPath(t, Deepest(t, shapes, h).window), subscribed, k)
    ensures var d := Descent(t, shapes, h);
            Propagate(t, subscribed, Deepest(t, shapes, h), MAX_PROBES)
            == if k >= MAX_PROBES then None
               else if k < |d| then Some(d[|d| - 1 - k]) else Some(Climb(t, h, k + 1 - |d|))
    ensures var hit := Propagate(t, subscribed, Deepest(t, shapes, h), MAX_PROBES);
            hit.Some? ==> hit.value.window == RootPath(t, Deepest(t, shapes, h).window)[k]
  {
    var d := Descent(t, shapes, h);
    var deepest := Deepest(t, shapes, h);
    hide Climb, Propagate, RootPath, Deepest, NearestSubscriber, WellFormed;
    PropagateNearest(t, subscribed, deepest, k, MAX_PROBES);
    ClimbFromDeepest(t, shapes, h, k);
  }

  lemma ClimbFromDeepest(t: Table, shapes: Shapes, h: Hit, k: nat)
    requires WellFormed(t) && Placed(t, h.window)
    ensures var d := Descent(t, shapes, h);
            Climb(t, Deepest(t, shapes, h), k) == if k < |d| then d[|d| - 1 - k] else Climb(t, h, k + 1 - |d|)
  {
    var d := Descent(t, shapes, h);
    DeepestIsLast(t, shapes, h);
    hide Climb, Deepest;
    if k < |d| {
      ClimbRetraces(t, shapes, h, |d| - 1, |d| - 1 - k);
    } else {
      ClimbRetraces(t, shapes, h, |d| - 1, 0);
      ClimbTwice(t, d[|d| - 1], |d| - 1, k + 1 - |d|);
    }
  }

  lemma DeepestIsLast(t: Table, shapes: Shapes, h: Hit)
    requires WellFormed(t) && Placed(t, h.window)
    ensures var d := Descent(t, shapes, h); Deepest(t, shapes, h) == d[|d| - 1]
  {
  }

  /** The windows of a descent lie on one path. */
  lemma {:induction false} DescentOnPath(t: Table, shapes: Shapes, h: Hit, k: nat)
    requires WellFormed(t) && Placed(t, h.window) && k < |Descent(t, shapes, h)|
    ensures var w := Descent(t, shapes, h)[k].window;
            Placed(t, w) && |RootPath(t, w)| == |RootPath(t, h.window)| + k
            && RootPath(t, w)[k] == h.window
            && forall j :: 0 <= j <= k ==> RootPath(t, w)[j] == Descent(t, shapes, h)[k - j].window
    decreases k
  {
    var d := Descent(t, shapes, h);
    DescentCorrect(t, shapes, h);
    if k == 0 {
    } else {
      DescentOnPath(t, shapes, h, k - 1);
      assert StepsDown(t, shapes, d, k - 1);
      var w := d[k].window;
      assert Reaches(t, w);
      RootPathStep(t, w);
    }
  }

  /** The root gets back the original point of a descent from the root, for every i16 value. */
  lemma RootGetsOriginalPoint(t: Table, shapes: Shapes, x: Int16, y: Int16)
    requires WellFormed(t) && Placed(t, ROOT) && |Descent(t, shapes, Hit(ROOT, x, y))| <= MAX_PROBES
    ensures Propagate(t, {ROOT}, Deepest(t, shapes, Hit(ROOT, x, y)), MAX_PROBES) == Some(Hit(ROOT, x, y))
  {
    var h := Hit(ROOT, x, y);
    var d := Descent(t, shapes, h);
    var k := |d| - 1;
    DescentOnPath(t, shapes, h, k);
    DeepestIsLast(t, shapes, h);
    RootPathRoot(t);
    RootPathNoDups(t, d[k].window);
    assert NearestSubscriber(RootPath(t, d[k].window), {ROOT}, k);
    hide Descent, Deepest, Propagate, RootPath;
    HitThenPropagate(t, shapes, {ROOT}, h, k);
  }

  // ----- Input shapes -----

  /** The hit test only looks up points that no clamp of the region operations can disturb. So after any
      shape operation on any rectangle lists, a window is hit exactly when the boolean operation on the
      memberships in the operands says so. */
  lemma ShapeOpDecidesHit(t: Table, shapes: Shapes, c: WindowId, x: Int16, y: Int16,
                          current: seq<RegionRect>, source: seq<RegionRect>, op: int)
    requires c in t
    ensures HitChild(t, shapes[c := ShapeOp(current, source, op)], c, x, y).Some?
       <==> var px, py := Offset(t[c].x, x), Offset(t[c].y, y);
            t[c].mapState != Unmapped && Spans(t[c].x, t[c].width, x) && Spans(t[c].y, t[c].height, y)
            && ShapeOpBit(op, Covers(current, px, py), Covers(source, px, py))
  {
    hide ShapeOp, ShapeOpBit, Covers, HitChild;
    ShapeOpExactIff(current, source, op);
    HitChildIff(t, shapes[c := ShapeOp(current, source, op)], c, x, y);
    var px, py := Offset(t[c].x, x), Offset(t[c].y, y);
    if Spans(t[c].x, t[c].width, x) && Spans(t[c].y, t[c].height, y) {
      assert Visible(px, py);
    }
  }
}
