/** What coalescing keeps, and how scroll deltas turn into clicks over whole runs. */
module Scrolling {
  import opened Ints
  import opened Wrappers
  import opened InputThread

  // ----- What coalescing keeps -----

  /** The messages that are not motions. */
  function Others(ms: seq<Message>): seq<Message> {
    if ms == [] then [] else (if IsMotion(ms[0]) then [] else [ms[0]]) + Others(ms[1..])
  }

  /** Coalescing drops motions only, keeps the rest in order, leaves no motion in front of another or of
      the shutdown, and has nothing left to do a second time. */
  lemma {:induction false} CoalesceKeeps(ms: seq<Message>)
    ensures Others(Coalesce(ms)) == Others(ms)
    ensures forall i :: 0 <= i < |Coalesce(ms)| - 1 ==>
      !(IsMotion(Coalesce(ms)[i]) && Supersedes(Coalesce(ms)[i + 1]))
    ensures ms != [] ==> Coalesce(ms) != [] && (Supersedes(Coalesce(ms)[0]) || Coalesce(ms)[0] == ms[0])
    ensures ms != [] && !IsMotion(ms[0]) ==> Coalesce(ms)[0] == ms[0]
    ensures Coalesce(Coalesce(ms)) == Coalesce(ms)
    decreases |ms|
  {
    if |ms| < 2 {
    } else {
      var rest := ms[1..];
      CoalesceKeeps(rest);
      assert [ms[0]] + rest == ms;
    }
  }

  // ----- Counting clicks -----

  predicate IsPress(m: Message, b: Card16) {
    m.HostInput? && m.event.HostButton? && m.event.buttonDown && m.event.button == b
  }

  function Presses(ms: seq<Message>, b: Card16): nat {
    if ms == [] then 0 else (if IsPress(ms[0], b) then 1 else 0) + Presses(ms[1..], b)
  }

  lemma {:induction false} PressesConcat(a: seq<Message>, c: seq<Message>, b: Card16)
    ensures Presses(a + c, b) == Presses(a, b) + Presses(c, b)
    decreases |a|
  {
    if a == [] {
      assert a + c == c;
    } else {
      assert (a + c)[1..] == a[1..] + c;
      PressesConcat(a[1..], c, b);
    }
  }

  lemma {:induction false} PressesOfOthers(ms: seq<Message>, b: Card16)
    ensures Presses(Others(ms), b) == Presses(ms, b)
    decreases |ms|
  {
    if ms == [] {
    } else {
      PressesOfOthers(ms[1..], b);
      PressesConcat(if IsMotion(ms[0]) then [] else [ms[0]], Others(ms[1..]), b);
    }
  }

  lemma {:induction false} PressesOfClicks(n: nat, button: Card16, time: Card32, b: Card16)
    ensures Presses(Clicks(n, button, time), b) == if b == button then n else 0
  {
    if n == 0 {
    } else {
      PressesOfClicks(n - 1, button, time, b);
      PressesConcat(Click(button, time), Clicks(n - 1, button, time), b);
      assert Click(button, time)[1..][1..] == [];
    }
  }

  /** A press and the release of the same button, at the same time. */
  predicate IsClick(m: Message, n: Message, b: Card16, time: Card32) {
    m == HostInput(HostButton(b, true, time)) && n == HostInput(HostButton(b, false, time))
  }

  /** One click after the other, of the one button or the other. */
  predicate ClicksOf(ms: seq<Message>, b: Card16, c: Card16, time: Card32)
    decreases |ms|
  {
    ms != [] ==>
      |ms| >= 2 && (IsClick(ms[0], ms[1], b, time) || IsClick(ms[0], ms[1], c, time)) && ClicksOf(ms[2..], b, c, time)
  }

  lemma {:induction false} ClicksAreClicks(n: nat, button: Card16, b: Card16, c: Card16, time: Card32)
    requires button == b || button == c
    ensures ClicksOf(Clicks(n, button, time), b, c, time)
    decreases n
  {
    if n == 0 {
    } else {
      ClicksAreClicks(n - 1, button, b, c, time);
      assert Clicks(n, button, time)[2..] == Clicks(n - 1, button, time);
    }
  }

  /** The wheel sends whole clicks only, each press followed by its release: first vertical ones, then horizontal
      ones. */
  lemma WheelClicks(s: Screen, e: Event, time: Card32) returns (vertical: seq<Message>, horizontal: seq<Message>)
    requires e.hotkey.None? && e.input.Scroll?
    ensures Expand(s, e, time).1 == vertical + horizontal
    ensures ClicksOf(vertical, SYNTH_SCROLL_UP, SYNTH_SCROLL_DOWN, time)
    ensures ClicksOf(horizontal, SYNTH_SCROLL_LEFT, SYNTH_SCROLL_RIGHT, time)
  {
    var y, x := WholeClicks(SaturatingAdd(s.accY, e.input.dyV120)), WholeClicks(SaturatingAdd(s.accX, e.input.dxV120));
    vertical := AxisClicks(y, SYNTH_SCROLL_DOWN, SYNTH_SCROLL_UP, time);
    horizontal := AxisClicks(x, SYNTH_SCROLL_RIGHT, SYNTH_SCROLL_LEFT, time);
    hide Clicks, WholeClicks, SaturatingAdd, ClicksOf;
    ClicksAreClicks(if y >= 0 then y else -y, if y >= 0 then SYNTH_SCROLL_DOWN else SYNTH_SCROLL_UP,
                    SYNTH_SCROLL_UP, SYNTH_SCROLL_DOWN, time);
    ClicksAreClicks(if x >= 0 then x else -x, if x >= 0 then SYNTH_SCROLL_RIGHT else SYNTH_SCROLL_LEFT,
                    SYNTH_SCROLL_LEFT, SYNTH_SCROLL_RIGHT, time);
  }

  /** One axis loses nothing exactly when the accumulator does not saturate; what remains is less than a
      click. */
  lemma DrainExactIff(acc: Int32, delta: Int32)
    ensures var start := SaturatingAdd(acc, delta);
            && (acc as int + delta as int == 120 * WholeClicks(start) + Remainder(start)
                <==> -0x8000_0000 <= acc as int + delta as int <= I32_MAX)
            && -120 < Remainder(start) < 120
  {
  }

  datatype Axis = Horizontal | Vertical

  function Acc(s: State, a: Axis): Int32 {
    if a.Vertical? then s.accY else s.accX
  }

  /** The button for positive deltas, and the one for negative deltas. */
  function Forward(a: Axis): Card16 {
    if a.Vertical? then SYNTH_SCROLL_DOWN else SYNTH_SCROLL_RIGHT
  }

  function Backward(a: Axis): Card16 {
    if a.Vertical? then SYNTH_SCROLL_UP else SYNTH_SCROLL_LEFT
  }

  function Net(ms: seq<Message>, a: Axis): int {
    Presses(ms, Forward(a)) - Presses(ms, Backward(a))
  }

  function Delta(e: Event, a: Axis): Int32 {
    if e.hotkey.Some? || !e.input.Scroll? then 0 else if a.Vertical? then e.input.dyV120 else e.input.dxV120
  }

  /** A real device's button with the code of a scroll button. */
  function DeviceNet(e: Event, a: Axis): int {
    if e.hotkey.Some? || !e.input.Button? || !e.input.pressed then 0
    else if e.input.code == Forward(a) then 1
    else if e.input.code == Backward(a) then -1
    else 0
  }

  lemma AxisNet(n: int, p: Card16, q: Card16, time: Card32, b: Card16)
    ensures Presses(AxisClicks(n, p, q, time), b)
         == if n >= 0 then (if b == p then n else 0) else (if b == q then -n else 0)
  {
    if n >= 0 {
      PressesOfClicks(n, p, time, b);
    } else {
      PressesOfClicks(-n, q, time, b);
    }
  }

  function ScrollPresses(x: int, y: int, b: Card16): int {
    if b == SYNTH_SCROLL_DOWN then Max(y, 0)
    else if b == SYNTH_SCROLL_UP then Max(-y, 0)
    else if b == SYNTH_SCROLL_RIGHT then Max(x, 0)
    else if b == SYNTH_SCROLL_LEFT then Max(-x, 0)
    else 0
  }

  lemma DrainPresses(s: Screen, dx: Int32, dy: Int32, time: Card32, b: Card16)
    ensures var y, x := WholeClicks(SaturatingAdd(s.accY, dy)), WholeClicks(SaturatingAdd(s.accX, dx));
            Presses(DrainScroll(s, dx, dy, time).1, b) == ScrollPresses(x, y, b)
  {
    hide WholeClicks, Presses, AxisClicks;
    var y, x := WholeClicks(SaturatingAdd(s.accY, dy)), WholeClicks(SaturatingAdd(s.accX, dx));
    PressesConcat(AxisClicks(y, SYNTH_SCROLL_DOWN, SYNTH_SCROLL_UP, time),
                  AxisClicks(x, SYNTH_SCROLL_RIGHT, SYNTH_SCROLL_LEFT, time), b);
    AxisNet(y, SYNTH_SCROLL_DOWN, SYNTH_SCROLL_UP, time, b);
    AxisNet(x, SYNTH_SCROLL_RIGHT, SYNTH_SCROLL_LEFT, time, b);
  }

  lemma DrainNet(s: Screen, dx: Int32, dy: Int32, time: Card32, a: Axis)
    ensures var (t, ms) := DrainScroll(s, dx, dy, time);
            && Net(ms, a) == WholeClicks(SaturatingAdd(Acc(s, a), if a.Vertical? then dy else dx))
            && Acc(t, a) == Remainder(SaturatingAdd(Acc(s, a), if a.Vertical? then dy else dx))
  {
    hide WholeClicks, Presses, AxisClicks, SaturatingAdd, Remainder;
    DrainPresses(s, dx, dy, time, Forward(a));
    DrainPresses(s, dx, dy, time, Backward(a));
    if a.Vertical? {
      assert Net(DrainScroll(s, dx, dy, time).1, a) == WholeClicks(SaturatingAdd(s.accY, dy));
    } else {
      assert Net(DrainScroll(s, dx, dy, time).1, a) == WholeClicks(SaturatingAdd(s.accX, dx));
    }
  }

  predicate Moderate(e: Event) {
    e.input.Scroll? ==>
      && -(I32_MAX - 119) <= e.input.dxV120 <= I32_MAX - 119
      && -(I32_MAX - 119) <= e.input.dyV120 <= I32_MAX - 119
  }

  lemma NetOfOne(m: Message, a: Axis)
    ensures Net([m], a) == (if IsPress(m, Forward(a)) then 1 else 0) - (if IsPress(m, Backward(a)) then 1 else 0)
    ensures Net([], a) == 0
  {
    PressesOfOne(m, Forward(a));
    PressesOfOne(m, Backward(a));
  }

  lemma PressesOfOne(m: Message, b: Card16)
    ensures Presses([m], b) == if IsPress(m, b) then 1 else 0
    ensures Presses([], b) == 0
  {
    assert [m][0] == m && [m][1..] == [];
  }

  lemma ExpandNet(s: Screen, e: Event, time: Card32, a: Axis)
    requires -120 < Acc(s, a) < 120 && Moderate(e)
    ensures var (t, ms) := Expand(s, e, time);
            && Acc(s, a) + Delta(e, a) == 120 * (Net(ms, a) - DeviceNet(e, a)) + Acc(t, a)
            && -120 < Acc(t, a) < 120
  {
    hide WholeClicks, Remainder, SaturatingAdd, DrainScroll, Presses;
    if e.hotkey.None? && e.input.Scroll? {
      var d := Delta(e, a);
      assert d == if a.Vertical? then e.input.dyV120 else e.input.dxV120;
      DrainNet(s, e.input.dxV120, e.input.dyV120, time, a);
      DrainExactIff(Acc(s, a), d);
    } else {
      assert |Expand(s, e, time).1| == 1;
      NetOfOne(Expand(s, e, time).1[0], a);
      assert Expand(s, e, time).1 == [Expand(s, e, time).1[0]];
      hide Net;
    }
  }

  function TotalDelta(es: seq<Event>, a: Axis): int
    decreases |es|
  {
    if es == [] then 0 else Delta(es[0], a) + if IsZap(es[0]) then 0 else TotalDelta(es[1..], a)
  }

  function TotalDeviceNet(es: seq<Event>, a: Axis): int
    decreases |es|
  {
    if es == [] then 0 else DeviceNet(es[0], a) + if IsZap(es[0]) then 0 else TotalDeviceNet(es[1..], a)
  }

  lemma NetConcat(a: seq<Message>, b: seq<Message>, axis: Axis)
    ensures Net(a + b, axis) == Net(a, axis) + Net(b, axis)
  {
    PressesConcat(a, b, Forward(axis));
    PressesConcat(a, b, Backward(axis));
  }

  lemma {:induction false} ExpandAllNet(s: Screen, es: seq<Event>, time: Card32, a: Axis)
    requires -120 < Acc(s, a) < 120 && forall e :: e in es ==> Moderate(e)
    ensures var (t, ms) := ExpandAll(s, es, time);
            && Acc(s, a) + TotalDelta(es, a) == 120 * (Net(ms, a) - TotalDeviceNet(es, a)) + Acc(t, a)
            && -120 < Acc(t, a) < 120
    decreases |es|
  {
    hide Expand, Net;
    if es == [] {
      NetOfOne(Shutdown, a);
    } else {
      assert es[0] in es;
      ExpandNet(s, es[0], time, a);
      var (t, ms) := Expand(s, es[0], time);
      if !IsZap(es[0]) {
        ExpandAllNet(t, es[1..], time, a);
        NetConcat(ms, ExpandAll(t, es[1..], time).1, a);
      }
    }
  }

  /** Over a whole batch, on either axis: the scroll distance taken in is 120 for each net click sent, and
      less than a click is kept. Buttons that a device itself reports under a scroll code are set apart. */
  lemma BatchScrolls(s: Screen, pending: Option<HostEvent>, es: seq<Event>, time: Card32, a: Axis)
    requires -120 < Acc(s, a) < 120 && forall e :: e in es ==> Moderate(e)
    requires pending.Some? ==> pending.value.HostMotion?
    ensures var (t, sent, _) := Batch(s, pending, es, time);
            && Acc(s, a) + TotalDelta(es, a) == 120 * (Net(sent, a) - TotalDeviceNet(es, a)) + Acc(t, a)
            && -120 < Acc(t, a) < 120
  {
    var ms := ExpandAll(s, es, time).1;
    var stream := Pending(pending) + ms;
    ExpandAllNet(s, es, time, a);
    NetConcat(Pending(pending), ms, a);
    CoalescedNet(stream, a);
    PendingNet(pending, a);
  }

  lemma PendingNet(p: Option<HostEvent>, a: Axis)
    requires p.Some? ==> p.value.HostMotion?
    ensures Net(Pending(p), a) == 0
  {
    NetOfOne(if p.Some? then HostInput(p.value) else Shutdown, a);
  }

  lemma CoalescedNet(stream: seq<Message>, a: Axis)
    ensures Net(Settled(stream), a) == Net(stream, a)
  {
    CoalesceEnd(stream);
    CoalesceKeeps(stream);
    NetConcat(Settled(stream), Pending(Trailing(stream)), a);
    PendingNet(Trailing(stream), a);
    PressesOfOthers(stream, Forward(a));
    PressesOfOthers(stream, Backward(a));
    PressesOfOthers(Coalesce(stream), Forward(a));
    PressesOfOthers(Coalesce(stream), Backward(a));
  }

  // ----- Whole runs of the thread -----

  /** What the thread reads in one turn. */
  datatype Burst = Burst(events: seq<Event>, time: Card32)

  /** The thread's loop: a batch, then the motion that is still pending. */
  function RunThread(s: Screen, bursts: seq<Burst>): (Screen, seq<Message>)
    decreases |bursts|
  {
    if bursts == [] then (s, [])
    else
      var (t, sent, p) := Batch(s, None, bursts[0].events, bursts[0].time);
      var (u, rest) := RunThread(t, bursts[1..]);
      (u, sent + Pending(p) + rest)
  }

  function RunDelta(bursts: seq<Burst>, a: Axis): int {
    if bursts == [] then 0 else TotalDelta(bursts[0].events, a) + RunDelta(bursts[1..], a)
  }

  function RunDeviceNet(bursts: seq<Burst>, a: Axis): int {
    if bursts == [] then 0 else TotalDeviceNet(bursts[0].events, a) + RunDeviceNet(bursts[1..], a)
  }

  /** However the events are spread over batches: over the whole run the scroll distance on an axis is 120
      for each net click sent, and less than a click is left over. */
  lemma {:induction false} RunScrolls(s: Screen, bursts: seq<Burst>, a: Axis)
    requires -120 < Acc(s, a) < 120
    requires forall b, e :: b in bursts && e in b.events ==> Moderate(e)
    ensures var (t, sent) := RunThread(s, bursts);
            && Acc(s, a) + RunDelta(bursts, a) == 120 * (Net(sent, a) - RunDeviceNet(bursts, a)) + Acc(t, a)
            && -120 < Acc(t, a) < 120
    decreases |bursts|
  {
    hide Batch, Net;
    if bursts == [] {
      NetOfOne(Shutdown, a);
    } else {
      var b := bursts[0];
      assert b in bursts;
      var (t, sent, p) := Batch(s, None, b.events, b.time);
      BatchScrolls(s, None, b.events, b.time, a);
      RunScrolls(t, bursts[1..], a);
      StillPending(s, b.events, b.time);
      PendingNet(p, a);
      NetConcat(sent, Pending(p), a);
      NetConcat(sent + Pending(p), RunThread(t, bursts[1..]).1, a);
    }
  }

  lemma StillPending(s: Screen, es: seq<Event>, time: Card32)
    ensures var p := Batch(s, None, es, time).2; p.Some? ==> p.value.HostMotion?
  {
  }
}
