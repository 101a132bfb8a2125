/** Over any sequence of focus changes a client that replays the focus events knows the focus. */
module FocusReplay {
  import opened Ints
  import opened Wrappers
  import opened Sequences
  import opened WindowTree
  import opened Crossings
  import opened CrossingReplay
  import opened CrossingLaws
  import opened Focus

  /** How far the windows may be from the root, or from their common ancestor. */
  ghost predicate FocusNear(t: Table, fromRaw: WindowId, toRaw: WindowId)
    requires WellFormed(t) && Focusable(t, fromRaw) && Focusable(t, toRaw)
  {
    if Special(fromRaw) && Special(toRaw) then true
    else if Special(toRaw) then Depth(t, fromRaw) <= MAX_HOPS
    else if Special(fromRaw) then Depth(t, toRaw) <= MAX_HOPS + 1
    else NearFork(t, fromRaw, toRaw)
  }

  lemma SameWindowNear(t: Table, w: WindowId)
    requires WellFormed(t) && w in t && Reaches(t, w)
    ensures NearFork(t, w, w)
  {
    var (i, j) := ForkDistances(t, w, w);
    RootPathNoDups(t, w);
    ForkUnique(RootPath(t, w), RootPath(t, w), i, j, 0, 0);
  }

  lemma ToSpecialReplay(t: Table, a: WindowId)
    requires WellFormed(t) && a in t && Reaches(t, a)
    ensures Replay(t, RootPath(t, a), PopAll(Chain(t, a))) == Some([]) <==> Depth(t, a) <= MAX_HOPS
    ensures var r := Replay(t, RootPath(t, a), PopAll(Chain(t, a)));
            Depth(t, a) > MAX_HOPS ==> r.Some? && ROOT in r.value
  {
    hide PopAll, Replay;
    var p := RootPath(t, a);
    var m := Min(MAX_HOPS + 1, |p|);
    ChainIsPath(t, a, MAX_HOPS);
    ReplayPops(t, p, m);
    assert p[m..] == [] <==> m == |p|;
    if m < |p| {
      assert p[m..][|p| - 1 - m] == p[|p| - 1] == ROOT;
    }
  }

  lemma FromSpecialReplay(t: Table, b: WindowId)
    requires WellFormed(t) && b in t && Reaches(t, b)
    ensures Replay(t, [], PushAll(DownFromRoot(t, b)) + [Push(b)]) == Some(RootPath(t, b))
       <==> Depth(t, b) <= MAX_HOPS + 1
    ensures Depth(t, b) > MAX_HOPS + 1 ==> Replay(t, [], PushAll(DownFromRoot(t, b)) + [Push(b)]) == None
  {
    var p := RootPath(t, b);
    RootPathIs(t, b);
    if b == ROOT {
      RootPathRoot(t);
      ReplayRoot(t, []);
      assert PushAll(DownFromRoot(t, b)) + [Push(b)] == [Push(ROOT)] + [];
    } else {
      assert |p| >= 2 by { RootPathStep(t, b); }
      DownFromRootIs(t, b);
      if Depth(t, b) <= MAX_HOPS {
        WholePathPushed(t, p);
      } else {
        CutPathPushed(t, p, MAX_HOPS + 1);
      }
    }
  }

  /** What is pushed: the root once, and the chain below it backwards. */
  lemma DownFromRootIs(t: Table, b: WindowId)
    requires WellFormed(t) && b in t && Reaches(t, b) && b != ROOT && |RootPath(t, b)| >= 2
    ensures var p := RootPath(t, b);
            PushAll(DownFromRoot(t, b)) + [Push(b)]
            == [Push(ROOT)] + PushAll(Reverse(p[..Min(MAX_HOPS + 1, |p| - 1)]))
  {
    var p := RootPath(t, b);
    var n := Min(MAX_HOPS + 1, |p|);
    var k := Min(MAX_HOPS + 1, |p| - 1);
    ChainIsPath(t, b, MAX_HOPS);
    RootPathNoDups(t, b);
    RootIndex(p, n, k);
    hide PushAll, PopAll, Reverse, Chain, IndexOf;
    var ws := Reverse(p[1..k]);
    assert Between(Chain(t, b), Some(ROOT)) == p[1..k];
    PopAllConcat([ROOT], ws);
    PushOne(ROOT);
    DownThenEnter(p, k);
  }

  lemma RootIndex(p: seq<WindowId>, n: nat, k: nat)
    requires |p| >= 2 && NoDups(p) && p[|p| - 1] == ROOT && 1 <= n <= |p| && k == Min(n, |p| - 1)
    ensures 1 + IndexOf(p[..n][1..], Some(ROOT)) == k
    ensures p[..n][1..k] == p[1..k]
  {
    var c := p[..n];
    if n == |p| {
      IndexAt(c, n - 1);
    } else {
      assert forall i :: 0 <= i < |c[1..]| ==> c[1..][i] == p[i + 1];
    }
  }

  lemma ReplayRoot(t: Table, moves: seq<Move>)
    ensures Replay(t, [], [Push(ROOT)] + moves) == Replay(t, [ROOT], moves)
  {
    assert ([Push(ROOT)] + moves)[1..] == moves;
    assert [ROOT] + [] == [ROOT];
  }

  lemma WholePathPushed(t: Table, p: seq<WindowId>)
    requires IsRootPath(t, p) && |p| >= 2
    ensures Replay(t, [], [Push(ROOT)] + PushAll(Reverse(p[..|p| - 1]))) == Some(p)
  {
    ReplayRoot(t, PushAll(Reverse(p[..|p| - 1])));
    assert p[|p| - 1..] == [ROOT];
    ReplayPushes(t, p, |p| - 1);
  }

  lemma CutPathPushed(t: Table, p: seq<WindowId>, n: nat)
    requires IsRootPath(t, p) && 1 <= n < |p|
    ensures Replay(t, [], [Push(ROOT)] + PushAll(Reverse(p[..n]))) == Some(p) <==> n == |p| - 1
    ensures n != |p| - 1 ==> Replay(t, [], [Push(ROOT)] + PushAll(Reverse(p[..n]))) == None
  {
    if n == |p| - 1 {
      WholePathPushed(t, p);
    } else {
      ReplayRoot(t, PushAll(Reverse(p[..n])));
      assert p[..n][n - 1] == p[n - 1] && t[p[n - 1]].parent == p[n] != ROOT;
      FirstPushFails(t, [ROOT], p[..n]);
    }
  }

  /** One change of focus: the replay ends at the new focus exactly when the windows are near enough;
      where the pointer is does not matter. */
  lemma FocusReplayIff(t: Table, fromRaw: WindowId, toRaw: WindowId, p: WindowId)
    requires WellFormed(t) && Focusable(t, fromRaw) && Focusable(t, toRaw)
    ensures Replay(t, FocusView(t, fromRaw), FocusMoves(FocusEvents(t, fromRaw, toRaw, p))) == Some(FocusView(t, toRaw))
       <==> FocusNear(t, fromRaw, toRaw)
  {
    if fromRaw == toRaw {
      if !Special(fromRaw) { SameWindowNear(t, fromRaw); }
    } else if Special(fromRaw) && Special(toRaw) {
      SwitchMoves(t, fromRaw, toRaw, p);
    } else if Special(toRaw) {
      ToSpecialMoves(t, fromRaw, toRaw, p);
      ToSpecialReplay(t, fromRaw);
    } else if Special(fromRaw) {
      FromSpecialMoves(t, fromRaw, toRaw, p);
      FromSpecialReplay(t, toRaw);
    } else {
      WindowMoves(t, fromRaw, toRaw, p);
      CrossingsReplayIff(t, fromRaw, toRaw);
    }
  }

  lemma ShallowIsNear(t: Table, fromRaw: WindowId, toRaw: WindowId)
    requires WellFormed(t) && Focusable(t, fromRaw) && Focusable(t, toRaw)
    requires (Special(fromRaw) || Depth(t, fromRaw) <= MAX_HOPS) && (Special(toRaw) || Depth(t, toRaw) <= MAX_HOPS)
    ensures FocusNear(t, fromRaw, toRaw)
  {
    if !Special(fromRaw) && !Special(toRaw) {
      var (i, j) := ForkDistances(t, fromRaw, toRaw);
    }
  }

  /** A change of focus: the new value and the window the pointer is in. */
  datatype FocusChange = FocusChange(raw: WindowId, pointerWin: WindowId)

  ghost predicate NearRun(t: Table, fromRaw: WindowId, changes: seq<FocusChange>)
    requires WellFormed(t)
    decreases |changes|
  {
    Focusable(t, fromRaw)
    && (changes == [] || (Focusable(t, changes[0].raw) && FocusNear(t, fromRaw, changes[0].raw)
                          && NearRun(t, changes[0].raw, changes[1..])))
  }

  /** All events of a sequence of focus changes. */
  function RunMoves(t: Table, fromRaw: WindowId, changes: seq<FocusChange>): seq<Move>
    decreases |changes|
  {
    if changes == [] then []
    else FocusMoves(FocusEvents(t, fromRaw, changes[0].raw, changes[0].pointerWin))
         + RunMoves(t, changes[0].raw, changes[1..])
  }

  function LastFocus(fromRaw: WindowId, changes: seq<FocusChange>): WindowId {
    if changes == [] then fromRaw else changes[|changes| - 1].raw
  }

  /** A change between windows that are too far apart leaves a client without a view, or, if the new focus is
      None or PointerRoot, inside of windows it should have left. */
  lemma FarChange(t: Table, fromRaw: WindowId, toRaw: WindowId, p: WindowId)
    requires WellFormed(t) && Focusable(t, fromRaw) && Focusable(t, toRaw) && !FocusNear(t, fromRaw, toRaw)
    ensures var r := Replay(t, FocusView(t, fromRaw), FocusMoves(FocusEvents(t, fromRaw, toRaw, p)));
            r == None || (Special(toRaw) && ROOT in r.value)
  {
    hide MovesOf, FocusMoves, Replay, NearFork, PopAll, PushAll, Chain;
    if fromRaw == toRaw {
      SameWindowNear(t, fromRaw);
    } else if Special(toRaw) {
      ToSpecialMoves(t, fromRaw, toRaw, p);
      ToSpecialReplay(t, fromRaw);
    } else if Special(fromRaw) {
      FromSpecialMoves(t, fromRaw, toRaw, p);
      FromSpecialReplay(t, toRaw);
    } else {
      WindowMoves(t, fromRaw, toRaw, p);
      CrossingsReplayIff(t, fromRaw, toRaw);
    }
  }

  /** Every value of the run is None, PointerRoot or a window. */
  ghost predicate FocusableRun(t: Table, changes: seq<FocusChange>) {
    forall c :: c in changes ==> Focusable(t, c.raw)
  }

  /** A client that still believes the root to have the focus in it while nothing has never recovers. */
  lemma {:induction false} StaleViewStays(t: Table, view: seq<WindowId>, fromRaw: WindowId, changes: seq<FocusChange>)
    requires WellFormed(t) && Special(fromRaw) && FocusableRun(t, changes) && ROOT in view
    ensures Focusable(t, LastFocus(fromRaw, changes))
    ensures Replay(t, view, RunMoves(t, fromRaw, changes)) != Some(FocusView(t, LastFocus(fromRaw, changes)))
    decreases |changes|
  {
    hide FocusEvents, FocusMoves, WellFormed, PushAll;
    if changes == [] {
    } else {
      var c, rest := changes[0], changes[1..];
      assert c in changes;
      assert LastFocus(fromRaw, changes) == LastFocus(c.raw, rest);
      LastIsFocusable(t, c.raw, rest);
      var moves := FocusMoves(FocusEvents(t, fromRaw, c.raw, c.pointerWin));
      if Special(c.raw) {
        SwitchMovesNothing(t, fromRaw, c.raw, c.pointerWin);
        assert moves + RunMoves(t, c.raw, rest) == RunMoves(t, c.raw, rest);
        StaleViewStays(t, view, c.raw, rest);
      } else {
        EntryPushesRoot(t, fromRaw, c.raw, c.pointerWin);
        var more := moves + RunMoves(t, c.raw, rest);
        assert more[0] == Push(ROOT);
        assert !CanPush(t, view, ROOT);
      }
    }
  }

  lemma LastIsFocusable(t: Table, fromRaw: WindowId, changes: seq<FocusChange>)
    requires Focusable(t, fromRaw) && FocusableRun(t, changes)
    ensures Focusable(t, LastFocus(fromRaw, changes))
  {
  }

  lemma SwitchMovesNothing(t: Table, fromRaw: WindowId, toRaw: WindowId, p: WindowId)
    requires Special(fromRaw) && Special(toRaw)
    ensures FocusMoves(FocusEvents(t, fromRaw, toRaw, p)) == []
  {
    if fromRaw == toRaw {
      NoFocusMoves();
    } else {
      SwitchMoves(t, fromRaw, toRaw, p);
    }
  }

  /** From None or PointerRoot the focus enters a window through the root. */
  lemma EntryPushesRoot(t: Table, fromRaw: WindowId, b: WindowId, p: WindowId)
    requires Special(fromRaw) && !Special(b)
    ensures var moves := FocusMoves(FocusEvents(t, fromRaw, b, p)); moves != [] && moves[0] == Push(ROOT)
  {
    hide FocusMoves, Reverse, Between, Chain;
    FromSpecialMoves(t, fromRaw, b, p);
  }

  /** Replaying a whole sequence of focus changes leaves exactly the path of the current focus window, or
      nothing for None and PointerRoot, if and only if every single change is near enough: one that is not
      is never made up for. */
  lemma {:induction false} FocusRunReplaysIff(t: Table, fromRaw: WindowId, changes: seq<FocusChange>)
    requires WellFormed(t) && Focusable(t, fromRaw) && FocusableRun(t, changes)
    ensures Focusable(t, LastFocus(fromRaw, changes))
    ensures Replay(t, FocusView(t, fromRaw), RunMoves(t, fromRaw, changes)) == Some(FocusView(t, LastFocus(fromRaw, changes)))
       <==> NearRun(t, fromRaw, changes)
    decreases |changes|
  {
    hide FocusEvents, FocusMoves, FocusNear, WellFormed;
    if changes == [] {
    } else {
      var c, rest := changes[0], changes[1..];
      assert c in changes;
      var moves := FocusMoves(FocusEvents(t, fromRaw, c.raw, c.pointerWin));
      assert LastFocus(fromRaw, changes) == LastFocus(c.raw, rest);
      ReplayConcat(t, FocusView(t, fromRaw), moves, RunMoves(t, c.raw, rest));
      if FocusNear(t, fromRaw, c.raw) {
        FocusReplayIff(t, fromRaw, c.raw, c.pointerWin);
        FocusRunReplaysIff(t, c.raw, rest);
      } else {
        FarChange(t, fromRaw, c.raw, c.pointerWin);
        LastIsFocusable(t, c.raw, rest);
        var r := Replay(t, FocusView(t, fromRaw), moves);
        if r.Some? {
          StaleViewStays(t, r.value, c.raw, rest);
        }
      }
    }
  }

  lemma FocusViewIsView(t: Table, raw: WindowId)
    requires WellFormed(t) && Focusable(t, raw)
    ensures IsView(t, FocusView(t, raw))
  {
  }

  /** In between, too: after any number of the events that fit, the client has the path of some window, or
      nothing; and they all fit if every change is near enough. */
  lemma FocusViewsArePaths(t: Table, fromRaw: WindowId, changes: seq<FocusChange>, k: nat)
    requires WellFormed(t) && Focusable(t, fromRaw) && FocusableRun(t, changes) && k <= |RunMoves(t, fromRaw, changes)|
    ensures var r := Replay(t, FocusView(t, fromRaw), RunMoves(t, fromRaw, changes)[..k]);
            && (r.Some? ==> IsView(t, r.value))
            && (NearRun(t, fromRaw, changes) ==> r.Some?)
  {
    hide RunMoves, Replay, NearRun;
    var moves := RunMoves(t, fromRaw, changes);
    FocusRunReplaysIff(t, fromRaw, changes);
    if NearRun(t, fromRaw, changes) {
      ReplayPrefix(t, FocusView(t, fromRaw), moves, k);
    }
    FocusViewIsView(t, fromRaw);
    if Replay(t, FocusView(t, fromRaw), moves[..k]).Some? {
      ReplayStaysOnPaths(t, FocusView(t, fromRaw), moves[..k]);
    }
  }
}
