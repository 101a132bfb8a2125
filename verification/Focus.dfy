/** FocusIn/FocusOut events for the keyboard focus moving between None, PointerRoot and windows. */
module Focus {
  import opened Wrappers
  import opened Sequences
  import opened WindowTree
  import opened Crossings
  import opened CrossingReplay

  datatype FocusEvent = FocusEvent(window: WindowId, focusIn: bool, detail: Detail)

  /** Wire values of the focus that are not windows. */
  const FOCUS_NONE: WindowId := 0
  const FOCUS_POINTER_ROOT: WindowId := 1

  predicate Special(raw: WindowId) {
    raw == FOCUS_NONE || raw == FOCUS_POINTER_ROOT
  }

  function Mark(raw: WindowId): Detail {
    if raw == FOCUS_POINTER_ROOT then PointerRoot else DetailNone
  }

  function Outs(ws: seq<WindowId>, detail: Detail): (r: seq<FocusEvent>)
    ensures |r| == |ws| && forall i :: 0 <= i < |ws| ==> r[i] == FocusEvent(ws[i], false, detail)
  {
    if ws == [] then [] else [FocusEvent(ws[0], false, detail)] + Outs(ws[1..], detail)
  }

  function Ins(ws: seq<WindowId>, detail: Detail): (r: seq<FocusEvent>)
    ensures |r| == |ws| && forall i :: 0 <= i < |ws| ==> r[i] == FocusEvent(ws[i], true, detail)
  {
    if ws == [] then [] else [FocusEvent(ws[0], true, detail)] + Ins(ws[1..], detail)
  }

  predicate IsAncestor(t: Table, a: WindowId, b: WindowId) {
    a != b && a in Chain(t, b)[1..]
  }

  /** The entries strictly between the first one and `stop`. */
  function Between(chain: seq<WindowId>, stop: Option<WindowId>): seq<WindowId>
    requires chain != []
  {
    chain[1..1 + IndexOf(chain[1..], stop)]
  }

  // ----- The runs towards the pointer -----

  /** From the pointer's window upwards to `w`, with or without `w` itself. */
  function RunWindows(t: Table, w: WindowId, p: WindowId, inclusive: bool): seq<WindowId> {
    var chain := Chain(t, p);
    var i := IndexOf(chain, Some(w));
    if inclusive && i < |chain| then chain[..i + 1] else chain[..i]
  }

  predicate Related(t: Table, x: Option<WindowId>, p: WindowId) {
    x.Some? && (IsAncestor(t, x.value, p) || IsAncestor(t, p, x.value))
  }

  function OutRun(t: Table, w: WindowId, p: WindowId, exclude: Option<WindowId>, inclusive: bool): seq<FocusEvent> {
    if !(IsAncestor(t, w, p) || (w == p && inclusive)) || Related(t, exclude, p) then []
    else Outs(RunWindows(t, w, p, inclusive), Pointer)
  }

  function InRun(t: Table, w: WindowId, p: WindowId, exclude: Option<WindowId>, inclusive: bool): seq<FocusEvent> {
    if exclude == Some(p) || (w != p && !IsAncestor(t, w, p)) || Related(t, exclude, p) then []
    else Ins(Reverse(RunWindows(t, w, p, inclusive)), Pointer)
  }

  /** The windows of the events, in order. */
  function EventWindows(events: seq<FocusEvent>): (r: seq<WindowId>)
    ensures |r| == |events| && forall i :: 0 <= i < |events| ==> r[i] == events[i].window
  {
    if events == [] then [] else [events[0].window] + EventWindows(events[1..])
  }

  lemma RunEventWindows(ws: seq<WindowId>)
    ensures EventWindows(Outs(ws, Pointer)) == ws && EventWindows(Ins(ws, Pointer)) == ws
  {
  }

  /** Without an excluded window, the run of FocusIn events is the run of FocusOut events backwards. */
  lemma PointerRunsMirror(t: Table, w: WindowId, p: WindowId, inclusive: bool)
    ensures EventWindows(InRun(t, w, p, None, inclusive)) == Reverse(EventWindows(OutRun(t, w, p, None, inclusive)))
    ensures forall e :: e in InRun(t, w, p, None, inclusive) ==> e.focusIn && e.detail == Pointer
    ensures forall e :: e in OutRun(t, w, p, None, inclusive) ==> !e.focusIn && e.detail == Pointer
  {
    var ws := RunWindows(t, w, p, inclusive);
    RunEventWindows(ws);
    RunEventWindows(Reverse(ws));
    if w == p && !inclusive {
      EmptyRun(t, p);
    }
    hide RunWindows, IsAncestor, Outs, Ins, Reverse;
  }

  lemma EmptyRun(t: Table, p: WindowId)
    ensures RunWindows(t, p, p, false) == [] && Reverse(RunWindows(t, p, p, false)) == []
  {
  }

  // ----- The transition -----

  function ToSpecial(t: Table, a: WindowId, toRaw: WindowId, p: WindowId): seq<FocusEvent> {
    OutRun(t, a, p, None, false)
    + [FocusEvent(a, false, Nonlinear)] + Outs(Between(Chain(t, a), None), NonlinearVirtual)
    + [FocusEvent(ROOT, true, Mark(toRaw))]
    + (if toRaw == FOCUS_POINTER_ROOT then InRun(t, ROOT, p, None, true) else [])
  }

  /** FocusIn on the windows above `b`, from the root downwards. */
  function EnterFromRoot(t: Table, b: WindowId): seq<FocusEvent> {
    if b == ROOT then []
    else [FocusEvent(ROOT, true, NonlinearVirtual)]
         + Ins(Reverse(Between(Chain(t, b), Some(ROOT))), NonlinearVirtual)
  }

  function FromSpecial(t: Table, fromRaw: WindowId, b: WindowId, p: WindowId): seq<FocusEvent> {
    (if fromRaw == FOCUS_POINTER_ROOT then OutRun(t, ROOT, p, None, true) else [])
    + [FocusEvent(ROOT, false, Mark(fromRaw))]
    + EnterFromRoot(t, b)
    + [FocusEvent(b, true, Nonlinear)]
    + InRun(t, b, p, None, false)
  }

  function Switch(t: Table, fromRaw: WindowId, toRaw: WindowId, p: WindowId): seq<FocusEvent> {
    (if fromRaw == FOCUS_POINTER_ROOT && toRaw != FOCUS_POINTER_ROOT then OutRun(t, ROOT, p, None, true) else [])
    + [FocusEvent(ROOT, false, Mark(fromRaw))]
    + [FocusEvent(ROOT, true, Mark(toRaw))]
    + (if toRaw == FOCUS_POINTER_ROOT then InRun(t, ROOT, p, None, true) else [])
  }

  function ToAncestor(t: Table, a: WindowId, b: WindowId, p: WindowId): seq<FocusEvent> {
    [FocusEvent(a, false, Ancestor)] + Outs(Between(Chain(t, a), Some(b)), Virtual)
    + [FocusEvent(b, true, Inferior)] + InRun(t, b, p, Some(a), false)
  }

  function ToDescendant(t: Table, a: WindowId, b: WindowId, p: WindowId): seq<FocusEvent> {
    OutRun(t, a, p, Some(b), false)
    + [FocusEvent(a, false, Inferior)] + Ins(Reverse(Between(Chain(t, b), Some(a))), Virtual)
    + [FocusEvent(b, true, Ancestor)]
  }

  function Nonrelated(t: Table, a: WindowId, b: WindowId, p: WindowId): seq<FocusEvent> {
    var common := FirstCommon(Chain(t, a), Chain(t, b));
    OutRun(t, a, p, None, false)
    + [FocusEvent(a, false, Nonlinear)] + Outs(Between(Chain(t, a), common), NonlinearVirtual)
    + Ins(Reverse(Between(Chain(t, b), common)), NonlinearVirtual) + [FocusEvent(b, true, Nonlinear)]
    + InRun(t, b, p, None, false)
  }

  function FocusEvents(t: Table, fromRaw: WindowId, toRaw: WindowId, p: WindowId): seq<FocusEvent> {
    if fromRaw == toRaw then []
    else if Special(fromRaw) && Special(toRaw) then Switch(t, fromRaw, toRaw, p)
    else if Special(toRaw) then ToSpecial(t, fromRaw, toRaw, p)
    else if Special(fromRaw) then FromSpecial(t, fromRaw, toRaw, p)
    else if IsAncestor(t, toRaw, fromRaw) then ToAncestor(t, fromRaw, toRaw, p)
    else if IsAncestor(t, fromRaw, toRaw) then ToDescendant(t, fromRaw, toRaw, p)
    else Nonrelated(t, fromRaw, toRaw, p)
  }

  // ----- The code -----

  method IsAnc(t: Table, a: WindowId, b: WindowId) returns (r: bool)
    ensures r == IsAncestor(t, a, b)
  {
    var chain := AncestorChain(t, b);
    r := a != b && a in chain[1..];
  }

  /** The loop of both runs: walk up from the pointer's window. */
  method WalkRun(t: Table, w: WindowId, p: WindowId, inclusive: bool) returns (run: seq<WindowId>)
    ensures run == RunWindows(t, w, p, inclusive)
  {
    hide Chain;
    var chain := AncestorChain(t, p);
    run := [];
    var i := 0;
    while i < |chain|
      invariant 0 <= i <= |chain| && run == chain[..i]
      invariant IndexOf(chain, Some(w)) == i + IndexOf(chain[i..], Some(w))
    {
      if !inclusive && chain[i] == w {
        break;
      }
      run := run + [chain[i]];
      if inclusive && chain[i] == w {
        break;
      }
      assert chain[i..][1..] == chain[i + 1..];
      i := i + 1;
    }
  }

  method OutPointerRun(t: Table, w: WindowId, p: WindowId, exclude: Option<WindowId>, inclusive: bool)
    returns (ev: seq<FocusEvent>)
    ensures ev == OutRun(t, w, p, exclude, inclusive)
  {
    hide IsAncestor, RunWindows, Chain, Outs;
    var above := IsAnc(t, w, p);
    if !(above || (w == p && inclusive)) {
      return [];
    }
    if exclude.Some? {
      var up := IsAnc(t, exclude.value, p);
      var down := IsAnc(t, p, exclude.value);
      if up || down {
        return [];
      }
    }
    var run := WalkRun(t, w, p, inclusive);
    ev := PushRun(run);
  }

  method PushRun(run: seq<WindowId>) returns (ev: seq<FocusEvent>)
    ensures ev == Outs(run, Pointer)
  {
    ev := [];
    for i := 0 to |run|
      invariant |ev| == i && forall j :: 0 <= j < i ==> ev[j] == FocusEvent(run[j], false, Pointer)
    {
      ev := ev + [FocusEvent(run[i], false, Pointer)];
    }
  }

  /** `for w in run.into_iter().rev()` */
  method PushIns(run: seq<WindowId>, detail: Detail) returns (ev: seq<FocusEvent>)
    ensures ev == Ins(Reverse(run), detail)
  {
    ev := [];
    var i := |run|;
    while i > 0
      invariant 0 <= i <= |run|
      invariant ev == Ins(Reverse(run[i..]), detail)
    {
      i := i - 1;
      assert run[i..] == [run[i]] + run[i + 1..];
      ReverseConcat([run[i]], run[i + 1..]);
      assert Reverse([run[i]]) == [run[i]];
      ev := ev + [FocusEvent(run[i], true, detail)];
    }
    assert run[0..] == run;
  }

  method InPointerRun(t: Table, w: WindowId, p: WindowId, exclude: Option<WindowId>, inclusive: bool)
    returns (ev: seq<FocusEvent>)
    ensures ev == InRun(t, w, p, exclude, inclusive)
  {
    hide IsAncestor, RunWindows, Chain, Ins, Reverse;
    var above := IsAnc(t, w, p);
    if exclude == Some(p) || (w != p && !above) {
      return [];
    }
    if exclude.Some? {
      var up := IsAnc(t, exclude.value, p);
      var down := IsAnc(t, p, exclude.value);
      if up || down {
        return [];
      }
    }
    var run := WalkRun(t, w, p, inclusive);
    ev := PushIns(run, Pointer);
  }

  /** The windows above the first one, up to the one to stop at. */
  method Mids(chain: seq<WindowId>, stop: Option<WindowId>) returns (mids: seq<WindowId>)
    requires chain != []
    ensures mids == Between(chain, stop)
  {
    mids := [];
    var i := 1;
    while i < |chain|
      invariant 1 <= i <= |chain| && mids == chain[1..i]
      invariant IndexOf(chain[1..], stop) == i - 1 + IndexOf(chain[i..], stop)
    {
      if stop == Some(chain[i]) {
        break;
      }
      assert chain[i..][1..] == chain[i + 1..];
      mids := mids + [chain[i]];
      i := i + 1;
    }
  }

  /** FocusOut on the windows above the first one, up to the one to stop at. */
  method PushOuts(chain: seq<WindowId>, stop: Option<WindowId>, detail: Detail) returns (ev: seq<FocusEvent>)
    requires chain != []
    ensures ev == Outs(Between(chain, stop), detail)
  {
    ev := [];
    var i := 1;
    while i < |chain|
      invariant 1 <= i <= |chain| && |ev| == i - 1
      invariant forall j :: 0 <= j < i - 1 ==> ev[j] == FocusEvent(chain[j + 1], false, detail)
      invariant IndexOf(chain[1..], stop) == i - 1 + IndexOf(chain[i..], stop)
    {
      if stop == Some(chain[i]) {
        break;
      }
      assert chain[i..][1..] == chain[i + 1..];
      ev := ev + [FocusEvent(chain[i], false, detail)];
      i := i + 1;
    }
  }

  method FocusTransitionEvents(t: Table, fromRaw: WindowId, toRaw: WindowId, pointerWin: WindowId)
    returns (ev: seq<FocusEvent>)
    ensures ev == FocusEvents(t, fromRaw, toRaw, pointerWin)
  {
    hide IsAncestor, OutRun, InRun, Outs, Ins, Between, Reverse, Chain, FirstCommon;
    if fromRaw == toRaw {
      return [];
    }
    if Special(fromRaw) && Special(toRaw) {
      ev := SwitchEvents(t, fromRaw, toRaw, pointerWin);
    } else if Special(toRaw) {
      ev := ToSpecialEvents(t, fromRaw, toRaw, pointerWin);
    } else if Special(fromRaw) {
      ev := FromSpecialEvents(t, fromRaw, toRaw, pointerWin);
    } else {
      ev := WindowToWindowEvents(t, fromRaw, toRaw, pointerWin);
    }
  }

  method SwitchEvents(t: Table, fromRaw: WindowId, toRaw: WindowId, p: WindowId) returns (ev: seq<FocusEvent>)
    ensures ev == Switch(t, fromRaw, toRaw, p)
  {
    hide OutRun, InRun;
    ev := [];
    if fromRaw == FOCUS_POINTER_ROOT && toRaw != FOCUS_POINTER_ROOT {
      ev := OutPointerRun(t, ROOT, p, None, true);
    }
    ev := ev + [FocusEvent(ROOT, false, if fromRaw == FOCUS_POINTER_ROOT then PointerRoot else DetailNone)];
    ev := ev + [FocusEvent(ROOT, true, if toRaw == FOCUS_POINTER_ROOT then PointerRoot else DetailNone)];
    if toRaw == FOCUS_POINTER_ROOT {
      var run := InPointerRun(t, ROOT, p, None, true);
      ev := ev + run;
    }
  }

  method ToSpecialEvents(t: Table, a: WindowId, toRaw: WindowId, p: WindowId) returns (ev: seq<FocusEvent>)
    ensures ev == ToSpecial(t, a, toRaw, p)
  {
    hide OutRun, InRun, Outs, Between, Chain;
    ev := OutPointerRun(t, a, p, None, false);
    ev := ev + [FocusEvent(a, false, Nonlinear)];
    var chain := AncestorChain(t, a);
    var outs := PushOuts(chain, None, NonlinearVirtual);
    ev := ev + outs;
    ev := ev + [FocusEvent(ROOT, true, if toRaw == FOCUS_POINTER_ROOT then PointerRoot else DetailNone)];
    if toRaw == FOCUS_POINTER_ROOT {
      var run := InPointerRun(t, ROOT, p, None, true);
      ev := ev + run;
    }
  }

  method FromSpecialEvents(t: Table, fromRaw: WindowId, b: WindowId, p: WindowId) returns (ev: seq<FocusEvent>)
    ensures ev == FromSpecial(t, fromRaw, b, p)
  {
    hide OutRun, InRun, Ins, Between, Chain, Reverse;
    ev := [];
    if fromRaw == FOCUS_POINTER_ROOT {
      ev := OutPointerRun(t, ROOT, p, None, true);
    }
    ev := ev + [FocusEvent(ROOT, false, if fromRaw == FOCUS_POINTER_ROOT then PointerRoot else DetailNone)];
    if b != ROOT {
      var chain := AncestorChain(t, b);
      var mids := Mids(chain, Some(ROOT));
      var ins := PushIns(mids, NonlinearVirtual);
      ev := ev + ([FocusEvent(ROOT, true, NonlinearVirtual)] + ins);
    }
    ev := ev + [FocusEvent(b, true, Nonlinear)];
    var run := InPointerRun(t, b, p, None, false);
    ev := ev + run;
  }

  method WindowToWindowEvents(t: Table, a: WindowId, b: WindowId, p: WindowId) returns (ev: seq<FocusEvent>)
    ensures ev == if IsAncestor(t, b, a) then ToAncestor(t, a, b, p)
                  else if IsAncestor(t, a, b) then ToDescendant(t, a, b, p) else Nonrelated(t, a, b, p)
  {
    hide IsAncestor, OutRun, InRun, Outs, Ins, Between, Chain, Reverse, FirstCommon;
    var up := IsAnc(t, b, a);
    var down := IsAnc(t, a, b);
    var aChain := AncestorChain(t, a);
    var bChain := AncestorChain(t, b);
    if up {
      var outs := PushOuts(aChain, Some(b), Virtual);
      var run := InPointerRun(t, b, p, Some(a), false);
      ev := [FocusEvent(a, false, Ancestor)] + outs + [FocusEvent(b, true, Inferior)] + run;
    } else if down {
      var run := OutPointerRun(t, a, p, Some(b), false);
      var mids := Mids(bChain, Some(a));
      var ins := PushIns(mids, Virtual);
      ev := run + [FocusEvent(a, false, Inferior)] + ins + [FocusEvent(b, true, Ancestor)];
    } else {
      var common := FirstCommon(aChain, bChain);
      var out := OutPointerRun(t, a, p, None, false);
      var outs := PushOuts(aChain, common, NonlinearVirtual);
      var mids := Mids(bChain, common);
      var ins := PushIns(mids, NonlinearVirtual);
      var run := InPointerRun(t, b, p, None, false);
      ev := out + [FocusEvent(a, false, Nonlinear)] + outs + ins + [FocusEvent(b, true, Nonlinear)] + run;
    }
  }

  // ----- Replaying focus events -----

  /** Details that do not say that the focus entered or left the window. */
  predicate Ignored(detail: Detail) {
    detail == Inferior || detail == Pointer || detail == PointerRoot || detail == DetailNone
  }

  function FocusMoves(events: seq<FocusEvent>): seq<Move> {
    if events == [] then []
    else (if Ignored(events[0].detail) then []
          else if events[0].focusIn then [Push(events[0].window)] else [Pop(events[0].window)])
         + FocusMoves(events[1..])
  }

  lemma {:induction false} FocusMovesConcat(a: seq<FocusEvent>, b: seq<FocusEvent>)
    ensures FocusMoves(a + b) == FocusMoves(a) + FocusMoves(b)
  {
    if a == [] {
      assert a + b == b;
    } else {
      assert (a + b)[1..] == a[1..] + b;
      FocusMovesConcat(a[1..], b);
    }
  }

  lemma FocusMovesOne(e: FocusEvent)
    ensures FocusMoves([e]) == if Ignored(e.detail) then [] else if e.focusIn then [Push(e.window)] else [Pop(e.window)]
  {
  }

  lemma {:induction false} OutsMove(ws: seq<WindowId>, detail: Detail)
    ensures FocusMoves(Outs(ws, detail)) == if Ignored(detail) then [] else PopAll(ws)
    ensures FocusMoves(Ins(ws, detail)) == if Ignored(detail) then [] else PushAll(ws)
  {
    if ws == [] {
    } else {
      OutsMove(ws[1..], detail);
      assert Outs(ws, detail)[1..] == Outs(ws[1..], detail) && Ins(ws, detail)[1..] == Ins(ws[1..], detail);
    }
  }

  /** Pointer runs never move the focus. */
  lemma PointerRunsIgnored(t: Table, w: WindowId, p: WindowId, exclude: Option<WindowId>, inclusive: bool)
    ensures FocusMoves(OutRun(t, w, p, exclude, inclusive)) == []
    ensures FocusMoves(InRun(t, w, p, exclude, inclusive)) == []
  {
    var ws := RunWindows(t, w, p, inclusive);
    OutsMove(ws, Pointer);
    OutsMove(Reverse(ws), Pointer);
  }

  lemma FocusMovesFive(a: seq<FocusEvent>, b: seq<FocusEvent>, c: seq<FocusEvent>, d: seq<FocusEvent>, e: seq<FocusEvent>)
    ensures FocusMoves(a + b + c + d + e)
         == FocusMoves(a) + FocusMoves(b) + FocusMoves(c) + FocusMoves(d) + FocusMoves(e)
  {
    FocusMovesConcat(a + b + c + d, e);
    FocusMovesConcat(a + b + c, d);
    FocusMovesConcat(a + b, c);
    FocusMovesConcat(a, b);
  }

  lemma NoFocusMoves()
    ensures FocusMoves([]) == []
  {
  }

  /** The path of windows that have the focus in them. */
  ghost function FocusView(t: Table, raw: WindowId): seq<WindowId>
    requires Special(raw) || Reaches(t, raw)
  {
    if Special(raw) then [] else RootPath(t, raw)
  }

  ghost predicate Focusable(t: Table, raw: WindowId) {
    Special(raw) || (raw in t && Reaches(t, raw))
  }

  lemma SwitchMoves(t: Table, fromRaw: WindowId, toRaw: WindowId, p: WindowId)
    ensures FocusMoves(Switch(t, fromRaw, toRaw, p)) == []
  {
    PointerRunsIgnored(t, ROOT, p, None, true);
    FocusMovesOne(FocusEvent(ROOT, false, Mark(fromRaw)));
    FocusMovesOne(FocusEvent(ROOT, true, Mark(toRaw)));
    NoFocusMoves();
    hide FocusMoves, OutRun, InRun;
    FocusMovesFive(if fromRaw == FOCUS_POINTER_ROOT && toRaw != FOCUS_POINTER_ROOT then OutRun(t, ROOT, p, None, true) else [],
      [FocusEvent(ROOT, false, Mark(fromRaw))], [FocusEvent(ROOT, true, Mark(toRaw))],
      if toRaw == FOCUS_POINTER_ROOT then InRun(t, ROOT, p, None, true) else [], []);
    assert Switch(t, fromRaw, toRaw, p) + [] == Switch(t, fromRaw, toRaw, p);
  }

  lemma BetweenNone(chain: seq<WindowId>)
    requires chain != []
    ensures Between(chain, None) == chain[1..]
  {
  }

  /** Leaving `a` and every window above it. */
  lemma OutOfAll(a: WindowId, chain: seq<WindowId>)
    requires chain != [] && chain[0] == a
    ensures FocusMoves([FocusEvent(a, false, Nonlinear)]) + FocusMoves(Outs(chain[1..], NonlinearVirtual)) == PopAll(chain)
  {
    FocusMovesOne(FocusEvent(a, false, Nonlinear));
    OutsMove(chain[1..], NonlinearVirtual);
    assert chain[1..|chain|] == chain[1..] && chain[..|chain|] == chain;
    hide FocusMoves, Outs, PopAll;
    LeaveThenUp(chain, |chain|);
  }

  lemma ToSpecialMoves(t: Table, a: WindowId, toRaw: WindowId, p: WindowId)
    ensures FocusMoves(ToSpecial(t, a, toRaw, p)) == PopAll(Chain(t, a))
  {
    var chain := Chain(t, a);
    assert chain != [] && chain[0] == a;
    hide FocusMoves, OutRun, InRun, PopAll, Outs, Between, Chain, IndexOf;
    var e0 := OutRun(t, a, p, None, false);
    var e1 := [FocusEvent(a, false, Nonlinear)];
    var e2 := Outs(chain[1..], NonlinearVirtual);
    var e3 := [FocusEvent(ROOT, true, Mark(toRaw))];
    var e4 := if toRaw == FOCUS_POINTER_ROOT then InRun(t, ROOT, p, None, true) else [];
    BetweenNone(chain);
    assert ToSpecial(t, a, toRaw, p) == e0 + e1 + e2 + e3 + e4;
    hide ToSpecial;
    FocusMovesFive(e0, e1, e2, e3, e4);
    assert FocusMoves(e0) == [] by {
      PointerRunsIgnored(t, a, p, None, false);
    }
    assert FocusMoves(e3) == [] by {
      FocusMovesOne(e3[0]);
    }
    assert FocusMoves(e4) == [] by {
      PointerRunsIgnored(t, ROOT, p, None, true);
      NoFocusMoves();
    }
    OnlyMiddle(FocusMoves(e1), FocusMoves(e2));
    OutOfAll(a, chain);
  }

  lemma OnlyMiddle(b: seq<Move>, c: seq<Move>)
    ensures [] + b + c + [] + [] == b + c
  {
  }

  /** What is pushed on the way down from the root to `b`. */
  function DownFromRoot(t: Table, b: WindowId): seq<WindowId> {
    if b == ROOT then [] else [ROOT] + Reverse(Between(Chain(t, b), Some(ROOT)))
  }

  lemma FromSpecialMoves(t: Table, fromRaw: WindowId, b: WindowId, p: WindowId)
    ensures FocusMoves(FromSpecial(t, fromRaw, b, p)) == PushAll(DownFromRoot(t, b)) + [Push(b)]
  {
    hide FocusMoves, OutRun, InRun, PushAll, EnterFromRoot, DownFromRoot, Chain;
    var e0 := if fromRaw == FOCUS_POINTER_ROOT then OutRun(t, ROOT, p, None, true) else [];
    var e1 := [FocusEvent(ROOT, false, Mark(fromRaw))];
    var e2 := EnterFromRoot(t, b);
    var e3 := [FocusEvent(b, true, Nonlinear)];
    var e4 := InRun(t, b, p, None, false);
    FocusMovesFive(e0, e1, e2, e3, e4);
    PointerRunsIgnored(t, ROOT, p, None, true);
    PointerRunsIgnored(t, b, p, None, false);
    NoFocusMoves();
    FocusMovesOne(e1[0]);
    FocusMovesOne(e3[0]);
    EnterFromRootMoves(t, b);
  }

  lemma EnterFromRootMoves(t: Table, b: WindowId)
    ensures FocusMoves(EnterFromRoot(t, b)) == PushAll(DownFromRoot(t, b))
  {
    hide FocusMoves, PushAll, Between, Chain, Reverse, Ins;
    var ws := Reverse(Between(Chain(t, b), Some(ROOT)));
    var first := FocusEvent(ROOT, true, NonlinearVirtual);
    NoFocusMoves();
    FocusMovesOne(first);
    FocusMovesConcat([first], Ins(ws, NonlinearVirtual));
    OutsMove(ws, NonlinearVirtual);
    PopAllConcat([ROOT], ws);
    PushOne(ROOT);
  }

  lemma PushOne(w: WindowId)
    ensures PushAll([w]) == [Push(w)] && PopAll([w]) == [Pop(w)] && PushAll([]) == []
  {
  }

  /** Between two windows the focus makes the same moves as the pointer. */
  lemma WindowMoves(t: Table, a: WindowId, b: WindowId, p: WindowId)
    requires !Special(a) && !Special(b)
    ensures FocusMoves(FocusEvents(t, a, b, p)) == MovesOf(CrossingChain(t, a, b))
  {
    hide ToAncestor, ToDescendant, Nonrelated, UpEvents, DownEvents, AcrossEvents, FocusMoves, MovesOf, Chain, FirstCommon;
    NoFocusMoves();
    NoMovesOf();
    ToAncestorMoves(t, a, b, p);
    ToDescendantMoves(t, a, b, p);
    NonrelatedMoves(t, a, b, p);
  }

  lemma NoMovesOf()
    ensures MovesOf([]) == []
  {
  }

  lemma BetweenIs(chain: seq<WindowId>, stop: Option<WindowId>)
    requires chain != []
    ensures var k := 1 + IndexOf(chain[1..], stop); k <= |chain| && Between(chain, stop) == chain[1..k]
  {
  }

  lemma ToAncestorMoves(t: Table, a: WindowId, b: WindowId, p: WindowId)
    ensures FocusMoves(ToAncestor(t, a, b, p)) == MovesOf(UpEvents(a, b, Chain(t, a)))
  {
    hide IndexOf, FocusMoves, MovesOf, InRun, PopAll, Outs, Between, Chain, LeavesUp;
    var chain := Chain(t, a);
    var k := 1 + IndexOf(chain[1..], Some(b));
    BetweenIs(chain, Some(b));
    PointerRunsIgnored(t, b, p, Some(a), false);
    FocusMovesOne(FocusEvent(a, false, Ancestor));
    FocusMovesOne(FocusEvent(b, true, Inferior));
    NoFocusMoves();
    OutsMove(chain[1..k], Virtual);
    FocusMovesFive([FocusEvent(a, false, Ancestor)], Outs(chain[1..k], Virtual), [FocusEvent(b, true, Inferior)],
      InRun(t, b, p, Some(a), false), []);
    assert ToAncestor(t, a, b, p) + [] == ToAncestor(t, a, b, p);
    LeavesMove(chain, k, Virtual);
    ThreeParts([CrossingEvent(a, Leave, Ancestor, NONE)], LeavesUp(chain, k, Virtual), [CrossingEvent(b, Enter, Inferior, NONE)]);
    MovesOfOne(CrossingEvent(a, Leave, Ancestor, NONE));
    MovesOfOne(CrossingEvent(b, Enter, Inferior, NONE));
  }

  lemma DescendantFocusMoves(t: Table, a: WindowId, b: WindowId, p: WindowId, k: nat)
    requires k == 1 + IndexOf(Chain(t, b)[1..], Some(a))
    ensures FocusMoves(ToDescendant(t, a, b, p)) == PushAll(Reverse(Chain(t, b)[1..k])) + [Push(b)]
  {
    hide IndexOf, FocusMoves, OutRun, PushAll, Ins, Between, Chain, Reverse;
    var chain := Chain(t, b);
    var run, middle := OutRun(t, a, p, Some(b), false), Ins(Reverse(chain[1..k]), Virtual);
    var first, last := [FocusEvent(a, false, Inferior)], [FocusEvent(b, true, Ancestor)];
    BetweenIs(chain, Some(a));
    assert ToDescendant(t, a, b, p) + [] == run + first + middle + last + [];
    assert ToDescendant(t, a, b, p) + [] == ToDescendant(t, a, b, p);
    hide ToDescendant;
    FocusMovesFive(run, first, middle, last, []);
    assert FocusMoves(run) == [] by { PointerRunsIgnored(t, a, p, Some(b), false); }
    assert FocusMoves(first) == [] by { FocusMovesOne(first[0]); }
    assert FocusMoves(last) == [Push(b)] by { FocusMovesOne(last[0]); }
    assert FocusMoves([]) == [] by { NoFocusMoves(); }
    assert FocusMoves(middle) == PushAll(Reverse(chain[1..k])) by { OutsMove(Reverse(chain[1..k]), Virtual); }
    LastTwo(FocusMoves(middle), [Push(b)]);
  }

  lemma LastTwo(c: seq<Move>, d: seq<Move>)
    ensures [] + [] + c + d + [] == c + d
  {
  }

  lemma DescendantCrossingMoves(t: Table, a: WindowId, b: WindowId, k: nat)
    requires k == 1 + IndexOf(Chain(t, b)[1..], Some(a))
    ensures MovesOf(DownEvents(a, b, Chain(t, b))) == PushAll(Reverse(Chain(t, b)[1..k])) + [Push(b)]
  {
    hide IndexOf, MovesOf, PushAll, Chain, EntersDown, Reverse;
    var chain := Chain(t, b);
    var first, last := [CrossingEvent(a, Leave, Inferior, NONE)], [CrossingEvent(b, Enter, Ancestor, NONE)];
    EntersMove(chain, k, Virtual);
    ThreeParts(first, EntersDown(chain, k, Virtual), last);
    assert MovesOf(first) == [] by { MovesOfOne(first[0]); }
    assert MovesOf(last) == [Push(b)] by { MovesOfOne(last[0]); }
  }

  lemma ToDescendantMoves(t: Table, a: WindowId, b: WindowId, p: WindowId)
    ensures FocusMoves(ToDescendant(t, a, b, p)) == MovesOf(DownEvents(a, b, Chain(t, b)))
  {
    var k := 1 + IndexOf(Chain(t, b)[1..], Some(a));
    hide IndexOf, FocusMoves, MovesOf, ToDescendant, DownEvents, Chain;
    DescendantFocusMoves(t, a, b, p, k);
    DescendantCrossingMoves(t, a, b, k);
  }

  lemma NonrelatedMoves(t: Table, a: WindowId, b: WindowId, p: WindowId)
    ensures FocusMoves(Nonrelated(t, a, b, p))
         == MovesOf(AcrossEvents(a, b, Chain(t, a), Chain(t, b), FirstCommon(Chain(t, a), Chain(t, b))))
  {
    hide FocusMoves, MovesOf, OutRun, InRun, PopAll, PushAll, Outs, Ins, Between, Chain, LeavesUp, EntersDown, Reverse,
      FirstCommon, IndexOf;
    var ac, bc := Chain(t, a), Chain(t, b);
    var common := FirstCommon(ac, bc);
    var k, l := 1 + IndexOf(ac[1..], common), 1 + IndexOf(bc[1..], common);
    var e0, e1 := OutRun(t, a, p, None, false), [FocusEvent(a, false, Nonlinear)];
    var e2, e3 := Outs(ac[1..k], NonlinearVirtual), Ins(Reverse(bc[1..l]), NonlinearVirtual);
    var e4, e5 := [FocusEvent(b, true, Nonlinear)], InRun(t, b, p, None, false);
    BetweenIs(ac, common);
    BetweenIs(bc, common);
    FocusMovesFive(e0, e1, e2, e3, e4);
    FocusMovesConcat(e0 + e1 + e2 + e3 + e4, e5);
    PointerRunsIgnored(t, a, p, None, false);
    PointerRunsIgnored(t, b, p, None, false);
    FocusMovesOne(e1[0]);
    FocusMovesOne(e4[0]);
    OutsMove(ac[1..k], NonlinearVirtual);
    OutsMove(Reverse(bc[1..l]), NonlinearVirtual);
    AcrossParts(a, b, ac, bc, common, k, l);
  }

  lemma AcrossParts(a: WindowId, b: WindowId, ac: seq<WindowId>, bc: seq<WindowId>, common: Option<WindowId>, k: nat, l: nat)
    requires ac != [] && bc != []
    requires k == 1 + IndexOf(ac[1..], common) && l == 1 + IndexOf(bc[1..], common)
    ensures MovesOf(AcrossEvents(a, b, ac, bc, common))
         == [Pop(a)] + PopAll(ac[1..k]) + PushAll(Reverse(bc[1..l])) + [Push(b)]
  {
    hide MovesOf, PopAll, PushAll, LeavesUp, EntersDown, Reverse, IndexOf;
    var up, down := LeavesUp(ac, k, NonlinearVirtual), EntersDown(bc, l, NonlinearVirtual);
    var first, last := [CrossingEvent(a, Leave, Nonlinear, NONE)], [CrossingEvent(b, Enter, Nonlinear, NONE)];
    LeavesMove(ac, k, NonlinearVirtual);
    EntersMove(bc, l, NonlinearVirtual);
    MovesOfConcat(first + up + down, last);
    ThreeParts(first, up, down);
    MovesOfOne(first[0]);
    MovesOfOne(last[0]);
  }
}
