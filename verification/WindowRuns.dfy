/** Whole runs of window requests: the table stays a rooted tree, the overlay window stays on top, and
    exactly which requests keep the map states truthful. */
module WindowRuns {
  import opened Ints
  import opened Wrappers
  import opened WindowTree
  import opened WindowOps
  import opened WindowDestroy
  import opened Stacking
  import opened Viewability

  datatype Request =
    | Create(q: CreateRequest)
    | Destroy(id: WindowId)
    | Reparent(window: WindowId, parent: WindowId, px: Int16, py: Int16)
    | Configure(target: WindowId, x: Option<Int16>, y: Option<Int16>, width: Option<Card16>, height: Option<Card16>,
                borderWidth: Option<Card16>, sibling: Option<WindowId>, mode: Option<int>)
    | Circulate(container: WindowId, direction: int)
    | MapRequest(mapped: WindowId)
    | UnmapRequest(unmapped: WindowId)
    | Materialize
    | Teardown

  const INITIAL: Table := map[ROOT := Window(ROOT, [], 0, 0, 800, 600, 0, Viewable)]

  function ConfigureWindow(t: Table, w: WindowId, x: Option<Int16>, y: Option<Int16>, width: Option<Card16>,
                           height: Option<Card16>, borderWidth: Option<Card16>,
                           sibling: Option<WindowId>, mode: Option<int>): Table
  {
    if w !in t then t
    else RestackWindow(Place(t, w, x, y, width, height, borderWidth), w, sibling, mode)
  }

  /** ConfigureWindow sets each field it is given, keeps each it is not, and leaves every other record alone but for
      the order of the siblings. */
  lemma ConfigureGeometry(t: Table, w: WindowId, x: Option<Int16>, y: Option<Int16>, width: Option<Card16>,
                          height: Option<Card16>, borderWidth: Option<Card16>, sibling: Option<WindowId>, mode: Option<int>)
    ensures var u := ConfigureWindow(t, w, x, y, width, height, borderWidth, sibling, mode);
            && u.Keys == t.Keys
            && (forall v :: v in t && v != w ==> u[v] == t[v].(children := u[v].children))
            && (w in t ==>
                  && (x.Some? ==> u[w].x == x.value) && (x.None? ==> u[w].x == t[w].x)
                  && (y.Some? ==> u[w].y == y.value) && (y.None? ==> u[w].y == t[w].y)
                  && (width.Some? ==> u[w].width == width.value) && (width.None? ==> u[w].width == t[w].width)
                  && (height.Some? ==> u[w].height == height.value) && (height.None? ==> u[w].height == t[w].height)
                  && (borderWidth.Some? ==> u[w].borderWidth == borderWidth.value)
                  && (borderWidth.None? ==> u[w].borderWidth == t[w].borderWidth)
                  && u[w].parent == t[w].parent && u[w].mapState == t[w].mapState)
  {
    hide ResolveRestack, ApplyRestack;
  }

  /** The stack modes inside a ConfigureWindow go by the geometry that the request has just set: afterwards the
      window is where the mode puts it, with respect to the rectangles in the new table. */
  lemma ConfigureStacks(t: Table, w: WindowId, x: Option<Int16>, y: Option<Int16>, width: Option<Card16>,
                        height: Option<Card16>, borderWidth: Option<Card16>, sibling: Option<WindowId>, mode: int)
    requires WellFormed(t) && w in t && w != ROOT
    ensures t[w].parent in t && Position(t[t[w].parent].children, w).Some?
    ensures var u := ConfigureWindow(t, w, x, y, width, height, borderWidth, sibling, Some(mode));
            var p, before := t[w].parent, t[t[w].parent].children;
            && p in u
            && (mode == 0 && sibling.None? ==> OnTop(u[p].children, w))
            && (mode == 1 && sibling.None? ==> u[p].children != [] && u[p].children[0] == w)
            && (sibling.Some? && sibling.value in before && sibling.value != w ==>
                  && (mode == 0 && sibling.value != COW ==> RightAbove(u[p].children, w, sibling.value))
                  && (mode == 1 ==> RightAbove(u[p].children, sibling.value, w)))
            && (mode == 2 ==> ClearAbove(u, u[p].children, w, sibling))
            && (mode == 3 ==> ClearBelow(u, u[p].children, w, sibling))
            && (mode == 4 ==> ClearAbove(u, u[p].children, w, sibling) || ClearBelow(u, u[p].children, w, sibling))
            && (!(0 <= mode <= 4) ==> u[p].children == before)
  {
    var g := Place(t, w, x, y, width, height, borderWidth);
    assert WindowOk(t, w);
    PlaceSameLinks(t, w, x, y, width, height, borderWidth);
    SameLinksWellFormed(t, g);
    RestackedParent(g, w, sibling, mode);
    assert w in t[t[w].parent].children;
    hide WellFormed, Place, WindowOk, RestackWindow, OnTop, RightAbove, ClearAbove, ClearBelow, Position, RestackedList;
    AboveRaises(g, w, sibling);
    BelowLowers(g, w, sibling);
    TopIfClearsAbove(g, w, sibling);
    BottomIfClearsBelow(g, w, sibling);
    OppositeClears(g, w, sibling);
    if !(0 <= mode <= 4) {
      UnknownModeChangesNothing(g, w, sibling, Some(mode));
    }
  }

  lemma RestackedParent(t: Table, w: WindowId, sibling: Option<WindowId>, mode: int)
    requires WellFormed(t) && w in t && w != ROOT
    ensures var u := RestackWindow(t, w, sibling, Some(mode));
            t[w].parent in u && RestackedList(t, w, sibling, mode) == u[t[w].parent].children
  {
    RestackKeepsTree(t, w, sibling, Some(mode));
    hide WellFormed, RestackWindow;
  }

  ghost function Apply(t: Table, r: Request): Table
    requires WellFormed(t)
  {
    match r
    case Create(q) => CreateWindow(t, q)
    case Destroy(id) => DestroyWindow(t, id).0
    case Reparent(w, p, x, y) => ReparentWindow(t, w, p, x, y).0
    case Configure(w, x, y, width, height, bw, sibling, mode) =>
      ConfigureWindow(t, w, x, y, width, height, bw, sibling, mode)
    case Circulate(c, d) => CirculateWindow(t, c, d).0
    case MapRequest(id) => MapWindow(t, id).0
    case UnmapRequest(id) => UnmapWindow(t, id).0
    case Materialize => if COW in t then t else MaterializeCow(t)
    case Teardown => if COW in t then DestroyCow(t) else t
  }

  /** What the dispatcher checks before it calls: ids are fresh and parents exist. */
  predicate Dispatched(t: Table, r: Request) {
    r.Create? ==> r.q.window !in t && r.q.parent in t
  }

  /** The last release of the overlay window tears it down without a look at its place: windows below it
      are left without a parent, and if it has been reparented, its parent still lists it. */
  predicate BreaksTree(t: Table, r: Request) {
    r.Teardown? && COW in t && !(t[COW].children == [] && t[COW].parent == ROOT)
  }

  ghost predicate Allowed(t: Table, r: Request) {
    Dispatched(t, r) && !BreaksTree(t, r)
  }

  lemma InitialIsTree()
    ensures WellFormed(INITIAL) && CowOnTop(INITIAL) && Truthful(INITIAL) && Shown(INITIAL, ROOT)
  {
    RootPathRoot(INITIAL);
  }

  lemma PlaceSameLinks(t: Table, w: WindowId, x: Option<Int16>, y: Option<Int16>, width: Option<Card16>,
                       height: Option<Card16>, borderWidth: Option<Card16>)
    ensures SameLinks(t, Place(t, w, x, y, width, height, borderWidth))
    ensures forall v :: v in t ==> Place(t, w, x, y, width, height, borderWidth)[v].mapState == t[v].mapState
  {
  }

  lemma DestroyKeepsTree(t: Table, id: WindowId)
    requires WellFormed(t)
    ensures WellFormed(DestroyWindow(t, id).0)
  {
    if id in t && id != ROOT {
      assert Reaches(t, id);
      DestroyWindowCorrect(t, id);
    }
  }

  lemma ConfigureKeepsTree(t: Table, r: Request)
    requires WellFormed(t) && r.Configure?
    ensures WellFormed(Apply(t, r))
  {
    PlaceSameLinks(t, r.target, r.x, r.y, r.width, r.height, r.borderWidth);
    var placed := Place(t, r.target, r.x, r.y, r.width, r.height, r.borderWidth);
    SameLinksWellFormed(t, placed);
    RestackKeepsTree(placed, r.target, r.sibling, r.mode);
  }

  /** Every allowed request keeps a rooted tree. */
  lemma ApplyKeepsTree(t: Table, r: Request)
    requires WellFormed(t) && Allowed(t, r)
    ensures WellFormed(Apply(t, r))
  {
    match r
    case Create(q) => CreateKeepsTree(t, q);
    case Destroy(id) => DestroyKeepsTree(t, id);
    case Reparent(w, p, x, y) => ReparentKeepsTree(t, w, p, x, y);
    case Configure(_, _, _, _, _, _, _, _) => ConfigureKeepsTree(t, r);
    case Circulate(c, d) => CirculateKeepsTree(t, c, d);
    case MapRequest(id) => if id in t { MapWindowExact(t, id); }
    case UnmapRequest(id) => SameLinksWellFormed(t, UnmapWindow(t, id).0);
    case Materialize => if COW !in t { MaterializeKeepsTree(t); }
    case Teardown => if COW in t { DestroyCowKeepsTreeIff(t); }
  }

  /** Of all the requests the dispatcher lets through, exactly those teardowns break the tree. */
  lemma ApplyKeepsTreeIff(t: Table, r: Request)
    requires WellFormed(t) && Dispatched(t, r)
    ensures WellFormed(Apply(t, r)) <==> !BreaksTree(t, r)
  {
    if BreaksTree(t, r) {
      DestroyCowKeepsTreeIff(t);
    } else {
      ApplyKeepsTree(t, r);
    }
  }

  /** A window created below the overlay window survives the release of the overlay window. */
  lemma TeardownCanBreakTree(q: CreateRequest)
    requires q.window != ROOT && q.window != COW && q.parent == COW
    ensures var shown := MaterializeCow(INITIAL); var t := CreateWindow(shown, q);
            && WellFormed(INITIAL) && COW !in INITIAL && WellFormed(shown) && Dispatched(shown, Create(q)) && WellFormed(t)
            && BreaksTree(t, Teardown) && !WellFormed(Apply(t, Teardown))
  {
    InitialIsTree();
    var shown := MaterializeCow(INITIAL);
    MaterializeKeepsTree(INITIAL);
    CreateKeepsTree(shown, q);
    var t := CreateWindow(shown, q);
    assert q.window in t[COW].children;
    ApplyKeepsTreeIff(t, Teardown);
  }

  // ----- Runs of everything the dispatcher lets through -----

  /** The dispatcher does its checks for as long as there is a tree to check against. */
  ghost predicate DispatchedRun(t: Table, rs: seq<Request>)
    requires WellFormed(t)
    decreases |rs|
  {
    rs != [] ==>
      Dispatched(t, rs[0]) && (WellFormed(Apply(t, rs[0])) ==> DispatchedRun(Apply(t, rs[0]), rs[1..]))
  }

  /** Every table of the run is a rooted tree. */
  ghost predicate StaysTree(t: Table, rs: seq<Request>)
    requires WellFormed(t)
    decreases |rs|
  {
    rs != [] ==> WellFormed(Apply(t, rs[0])) && StaysTree(Apply(t, rs[0]), rs[1..])
  }

  /** The overlay window is never torn down with children or away from the root. */
  ghost predicate TornDownBare(t: Table, rs: seq<Request>)
    requires WellFormed(t)
    decreases |rs|
  {
    rs != [] ==>
      !BreaksTree(t, rs[0]) && (WellFormed(Apply(t, rs[0])) ==> TornDownBare(Apply(t, rs[0]), rs[1..]))
  }

  /** Whatever the clients send, in whatever order: the table is a rooted tree after every request exactly
      when the overlay window is never torn down with children or away from the root. */
  lemma {:induction false} RunKeepsTreeIff(t: Table, rs: seq<Request>)
    requires WellFormed(t) && DispatchedRun(t, rs)
    ensures StaysTree(t, rs) <==> TornDownBare(t, rs)
    decreases |rs|
  {
    hide Apply, BreaksTree, WellFormed, Dispatched;
    if rs == [] {
    } else {
      ApplyKeepsTreeIff(t, rs[0]);
      if WellFormed(Apply(t, rs[0])) {
        RunKeepsTreeIff(Apply(t, rs[0]), rs[1..]);
      }
    }
  }

  /** The runs the laws below speak of. */
  ghost predicate AllowedRun(t: Table, rs: seq<Request>)
    requires WellFormed(t)
    decreases |rs|
  {
    rs == [] || (Allowed(t, rs[0]) && (ApplyKeepsTree(t, rs[0]); AllowedRun(Apply(t, rs[0]), rs[1..])))
  }

  ghost function Run(t: Table, rs: seq<Request>): Table
    requires WellFormed(t) && AllowedRun(t, rs)
    decreases |rs|
  {
    if rs == [] then t else (ApplyKeepsTree(t, rs[0]); Run(Apply(t, rs[0]), rs[1..]))
  }

  /** They are exactly the dispatched runs that stay trees. */
  lemma {:induction false} AllowedRunIff(t: Table, rs: seq<Request>)
    requires WellFormed(t)
    ensures AllowedRun(t, rs) <==> DispatchedRun(t, rs) && StaysTree(t, rs)
    decreases |rs|
  {
    hide Apply, BreaksTree, WellFormed, Dispatched;
    if rs == [] {
    } else if Dispatched(t, rs[0]) {
      ApplyKeepsTreeIff(t, rs[0]);
      if WellFormed(Apply(t, rs[0])) {
        AllowedRunIff(Apply(t, rs[0]), rs[1..]);
      }
    }
  }

  lemma {:induction false} RunKeepsTree(t: Table, rs: seq<Request>)
    requires WellFormed(t) && AllowedRun(t, rs)
    ensures WellFormed(Run(t, rs))
    decreases |rs|
  {
    if rs == [] {
    } else {
      ApplyKeepsTree(t, rs[0]);
      RunKeepsTree(Apply(t, rs[0]), rs[1..]);
    }
  }

  // ----- The overlay window -----

  /** The request does not move the overlay window itself, and stacks no child of the root above itself. */
  ghost predicate SparesCow(t: Table, r: Request) {
    match r
    case Create(q) => q.window != COW
    case Reparent(w, _, _, _) => w != COW
    case Configure(w, _, _, _, _, _, sibling, mode) =>
      w != COW && !(COW in t && w in t && t[w].parent == ROOT && w != ROOT && mode == Some(0) && sibling == Some(w))
    case _ => true
  }

  lemma SameLinksSameCow(t: Table, u: Table)
    requires SameLinks(t, u)
    ensures CowOnTop(t) <==> CowOnTop(u)
  {
  }

  lemma DestroyKeepsCow(t: Table, id: WindowId)
    requires WellFormed(t) && CowOnTop(t)
    ensures CowOnTop(DestroyWindow(t, id).0)
  {
    if id in t && id != ROOT {
      DestroyRootList(t, id);
      hide DestroyWindow, WellFormed;
      if COW in DestroyWindow(t, id).0 {
        WithoutKeepsLast(t[ROOT].children, id);
      }
    }
  }

  /** What destroying a window does to the root's child list. */
  lemma DestroyRootList(t: Table, id: WindowId)
    requires WellFormed(t) && id in t && id != ROOT
    ensures var u := DestroyWindow(t, id).0;
            && ROOT in u && id !in u && u.Keys <= t.Keys
            && u[ROOT].children == if t[id].parent == ROOT then Without(t[ROOT].children, id) else t[ROOT].children
  {
    assert Reaches(t, id);
    DestroyWindowCorrect(t, id);
    hide DestroyWindow, ParentsFirst, Enumerates, SamePath;
    OnPathSelf(t, id);
    assert id in Subtree(t, id);
  }

  lemma RootIsNoChild(t: Table, sibling: Option<WindowId>, mode: Option<int>)
    requires WellFormed(t)
    ensures RestackWindow(t, ROOT, sibling, mode) == t
  {
    assert WindowOk(t, ROOT);
  }

  lemma ConfigureKeepsCow(t: Table, r: Request)
    requires WellFormed(t) && CowOnTop(t) && r.Configure? && SparesCow(t, r)
    ensures CowOnTop(Apply(t, r))
  {
    PlaceSameLinks(t, r.target, r.x, r.y, r.width, r.height, r.borderWidth);
    var placed := Place(t, r.target, r.x, r.y, r.width, r.height, r.borderWidth);
    SameLinksWellFormed(t, placed);
    SameLinksSameCow(t, placed);
    if r.target == ROOT {
      RootIsNoChild(placed, r.sibling, r.mode);
    } else if r.target in t {
      RestackKeepsCowIff(placed, r.target, r.sibling, r.mode);
    }
  }

  lemma ApplyKeepsCow(t: Table, r: Request)
    requires WellFormed(t) && Allowed(t, r) && CowOnTop(t) && SparesCow(t, r)
    ensures CowOnTop(Apply(t, r))
  {
    match r
    case Create(q) => CreateKeepsCow(t, q);
    case Destroy(id) => DestroyKeepsCow(t, id);
    case Reparent(w, p, x, y) => ReparentKeepsCow(t, w, p, x, y);
    case Configure(_, _, _, _, _, _, _, _) => ConfigureKeepsCow(t, r);
    case Circulate(c, d) => CirculateKeepsCow(t, c, d);
    case MapRequest(id) => if id in t { MapWindowExact(t, id); SameLinksSameCow(t, MapWindow(t, id).0); }
    case UnmapRequest(id) => SameLinksSameCow(t, UnmapWindow(t, id).0);
    case Materialize => if COW !in t { MaterializePinsCow(t); }
    case Teardown =>
  }

  ghost predicate SparesCowRun(t: Table, rs: seq<Request>)
    requires WellFormed(t) && AllowedRun(t, rs)
    decreases |rs|
  {
    rs == [] || (SparesCow(t, rs[0]) && (ApplyKeepsTree(t, rs[0]); SparesCowRun(Apply(t, rs[0]), rs[1..])))
  }

  /** The overlay window is on top of the root's children after every run that does not move it. */
  lemma {:induction false} RunKeepsCow(t: Table, rs: seq<Request>)
    requires WellFormed(t) && AllowedRun(t, rs) && CowOnTop(t) && SparesCowRun(t, rs)
    ensures CowOnTop(Run(t, rs))
    decreases |rs|
  {
    if rs == [] {
    } else {
      ApplyKeepsTree(t, rs[0]);
      ApplyKeepsCow(t, rs[0]);
      RunKeepsCow(Apply(t, rs[0]), rs[1..]);
    }
  }

  // ----- Viewable -----

  /** The request cannot leave a mapped window Viewable below an unmapped one, or hide one that should show. */
  ghost predicate KeepsTruth(t: Table, r: Request)
    requires WellFormed(t)
  {
    match r
    case UnmapRequest(id) =>
      !(id in t && id != ROOT && Shown(t, id) && exists c :: c in t[id].children && c in t && Mapped(t, c))
    case Reparent(w, p, x, y) =>
      ReparentWindow(t, w, p, x, y).1.Ok? ==>
        (w in t && Mapped(t, w) && t[w].parent in t && p in t ==> (Shown(t, t[w].parent) <==> Shown(t, p)))
    case _ => true
  }

  ghost predicate SameStates(t: Table, u: Table) {
    forall w :: w in u ==> w in t && u[w].mapState == t[w].mapState && u[w].parent == t[w].parent
  }

  /** Truth survives when windows only go away or change places among their siblings. */
  lemma SameStatesTruthful(t: Table, u: Table)
    requires WellFormed(t) && WellFormed(u) && SameStates(t, u) && Truthful(t)
    ensures Truthful(u)
  {
    TruthfulIffLocal(t);
    TruthfulIffLocal(u);
    forall w | w in u ensures LocalTruth(u, w) {
      LocalTruthAt(t, w);
      if w != ROOT {
        ParentDistinct(u, w);
      }
    }
  }

  lemma CreateKeepsTruth(t: Table, u: Table, w: WindowId)
    requires WellFormed(t) && WellFormed(u) && Truthful(t) && w !in t && w != ROOT && u.Keys == t.Keys + {w}
    requires forall v :: v in t ==> u[v].mapState == t[v].mapState && u[v].parent == t[v].parent
    requires u[w].parent in t && (u[w].mapState == Unmapped || (Shown(u, w) && Shown(t, u[w].parent)))
    ensures Truthful(u)
  {
    TruthfulIffLocal(t);
    TruthfulIffLocal(u);
    forall v | v in u ensures LocalTruth(u, v) {
      if v != ROOT {
        ParentDistinct(u, v);
      }
      if v in t {
        LocalTruthAt(t, v);
        assert WindowOk(t, v);
      }
    }
  }

  lemma MaterializeKeepsTruth(t: Table)
    requires WellFormed(t) && COW !in t && Truthful(t) && Shown(t, ROOT)
    ensures WellFormed(MaterializeCow(t)) && Truthful(MaterializeCow(t))
  {
    MaterializeKeepsTree(t);
    CreateKeepsTruth(t, MaterializeCow(t), COW);
  }

  lemma ConfigureSameStates(t: Table, r: Request)
    requires WellFormed(t) && r.Configure?
    ensures SameStates(t, Apply(t, r)) && ROOT in Apply(t, r)
  {
    PlaceSameLinks(t, r.target, r.x, r.y, r.width, r.height, r.borderWidth);
    var placed := Place(t, r.target, r.x, r.y, r.width, r.height, r.borderWidth);
    SameLinksWellFormed(t, placed);
    RestackKeepsTree(placed, r.target, r.sibling, r.mode);
  }

  lemma DestroySameStates(t: Table, id: WindowId)
    requires WellFormed(t)
    ensures SameStates(t, DestroyWindow(t, id).0)
  {
    if id in t && id != ROOT {
      assert Reaches(t, id);
      DestroyWindowCorrect(t, id);
    }
  }

  /** For every request: afterwards "Viewable" again means "mapped up to the root" exactly when the
      request meets KeepsTruth. */
  lemma ApplyTruthIff(t: Table, r: Request)
    requires WellFormed(t) && Allowed(t, r) && Truthful(t) && Shown(t, ROOT)
    ensures WellFormed(Apply(t, r)) && Shown(Apply(t, r), ROOT)
    ensures Truthful(Apply(t, r)) <==> KeepsTruth(t, r)
  {
    ApplyKeepsTree(t, r);
    var u := Apply(t, r);
    match r
    case Create(q) => CreateKeepsTruth(t, u, q.window);
    case Destroy(id) => DestroySameStates(t, id); SameStatesTruthful(t, u);
    case Reparent(w, p, x, y) =>
      if ReparentWindow(t, w, p, x, y).1.Ok? { ReparentKeepsTruthIff(t, w, p, x, y); }
    case Configure(_, _, _, _, _, _, _, _) => ConfigureSameStates(t, r); SameStatesTruthful(t, u);
    case Circulate(c, d) => CirculateKeepsTree(t, c, d); SameStatesTruthful(t, u);
    case MapRequest(id) => MapKeepsTruth(t, id); if id in t { MapRootShown(t, id); }
    case UnmapRequest(id) => UnmapKeepsTruthIff(t, id);
    case Materialize => if COW !in t { MaterializeKeepsTruth(t); }
    case Teardown => SameStatesTruthful(t, u);
  }

  lemma MapRootShown(t: Table, id: WindowId)
    requires WellFormed(t) && Shown(t, ROOT) && id in t
    ensures WellFormed(MapWindow(t, id).0) && Shown(MapWindow(t, id).0, ROOT)
  {
    MapWindowExact(t, id);
    assert WindowOk(t, ROOT);
  }

  ghost predicate TruthKeptRun(t: Table, rs: seq<Request>)
    requires WellFormed(t) && AllowedRun(t, rs)
    decreases |rs|
  {
    rs == [] || (KeepsTruth(t, rs[0]) && (ApplyKeepsTree(t, rs[0]); TruthKeptRun(Apply(t, rs[0]), rs[1..])))
  }

  /** In every such run, in particular in every run without UnmapWindow and ReparentWindow, a window is
      Viewable exactly when it and all its ancestors are mapped. */
  lemma {:induction false} RunTruthful(t: Table, rs: seq<Request>)
    requires WellFormed(t) && AllowedRun(t, rs) && Truthful(t) && Shown(t, ROOT)
    requires TruthKeptRun(t, rs)
    ensures WellFormed(Run(t, rs)) && Truthful(Run(t, rs))
    decreases |rs|
  {
    if rs == [] {
    } else {
      ApplyTruthIff(t, rs[0]);
      RunTruthful(Apply(t, rs[0]), rs[1..]);
    }
  }

  lemma {:induction false} NoUnmapNoReparent(t: Table, rs: seq<Request>)
    requires WellFormed(t) && AllowedRun(t, rs)
    requires forall r :: r in rs ==> !r.UnmapRequest? && !r.Reparent?
    ensures TruthKeptRun(t, rs)
    decreases |rs|
  {
    if rs == [] {
    } else {
      ApplyKeepsTree(t, rs[0]);
      assert rs[0] in rs;
      NoUnmapNoReparent(Apply(t, rs[0]), rs[1..]);
    }
  }
}
