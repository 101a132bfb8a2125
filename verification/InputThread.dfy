/** From device events to messages for the core: cursor, scroll clicks, hotkeys, and motion coalescing. */
module InputThread {
  import opened Ints
  import opened Wrappers
  import opened Sequences

  type Int32 = v: int | -0x8000_0000 <= v <= 0x7FFF_FFFF

  const I32_MAX: int := 0x7FFF_FFFF
  const V120_PER_CLICK: int := 120

  const SYNTH_SCROLL_UP: Card16 := 0x180
  const SYNTH_SCROLL_DOWN: Card16 := 0x181
  const SYNTH_SCROLL_LEFT: Card16 := 0x182
  const SYNTH_SCROLL_RIGHT: Card16 := 0x183

  datatype Input =
    | Key(keycode: Card32, down: bool)
    | Motion(dx: real, dy: real)
    | MotionAbsolute(xNorm: real, yNorm: real)
    | Button(code: Card32, pressed: bool)
    | Scroll(dxV120: Int32, dyV120: Int32)
    | DeviceAdded(info: string)
    | DeviceRemoved(node: string)

  datatype Hotkey = Zap | DumpScanout | DumpDrawables | SwitchVt(vt: nat)

  /** An event, and the hotkey that the detector says it completes. */
  datatype Event = Event(input: Input, hotkey: Option<Hotkey>)

  datatype HostEvent =
    | HostKey(keyDown: bool, hostKeycode: nat, keyTime: Card32, rootX: Int16, rootY: Int16)
    | HostMotion(x: Int32, y: Int32, motionTime: Card32)
    | HostButton(button: Card16, buttonDown: bool, buttonTime: Card32)
    | HostAdded(hostInfo: string)
    | HostRemoved(hostNode: string)

  datatype Message =
    | HostInput(event: HostEvent)
    | Shutdown
    | ScanoutDump
    | DrawablesDump
    | VtSwitch(target: nat)

  datatype State = State(cursorX: real, cursorY: real, fbW: Card32, fbH: Card32, accX: Int32, accY: Int32)

  // ----- The cursor -----

  function Clamp(v: real, low: real, high: real): real {
    if v < low then low else if v > high then high else v
  }

  /** The last coordinate of a framebuffer side; an empty one counts as one pixel. */
  function LastPixel(side: Card32): real {
    (if side < 1 then 1 else side) as real - 1.0
  }

  /** `v as i32` for a coordinate on the screen. */
  function ToI32(v: real): Int32
    requires v >= 0.0
  {
    Min(v.Floor, I32_MAX)
  }

  function ToI16(v: real): Int16
    requires v >= 0.0
  {
    Min(v.Floor, I16_MAX)
  }

  /** The cursor is on a pixel of the framebuffer. */
  predicate OnScreen(s: State) {
    0.0 <= s.cursorX < LastPixel(s.fbW) + 1.0 && 0.0 <= s.cursorY < LastPixel(s.fbH) + 1.0
  }

  type Screen = s: State | OnScreen(s) witness State(0.0, 0.0, 0, 0, 0, 0)

  function MotionAt(s: Screen, time: Card32): HostEvent {
    HostMotion(ToI32(s.cursorX), ToI32(s.cursorY), time)
  }

  /** Everything but scrolling and device changes, which do not come here. */
  function Map(s: Screen, i: Input, time: Card32): (Screen, HostEvent)
    requires i.Key? || i.Motion? || i.MotionAbsolute? || i.Button?
  {
    match i
    case Key(k, down) => (s, HostKey(down, (k as int + 8) % 0x100, time, ToI16(s.cursorX), ToI16(s.cursorY)))
    case Motion(dx, dy) =>
      var t := s.(cursorX := Clamp(s.cursorX + dx, 0.0, LastPixel(s.fbW)),
                  cursorY := Clamp(s.cursorY + dy, 0.0, LastPixel(s.fbH)));
      (t, MotionAt(t, time))
    case MotionAbsolute(x, y) =>
      var t := s.(cursorX := Scale(Clamp(x, 0.0, 1.0), LastPixel(s.fbW)),
                  cursorY := Scale(Clamp(y, 0.0, 1.0), LastPixel(s.fbH)));
      (t, MotionAt(t, time))
    case Button(code, pressed) => (s, HostButton(if code <= U16_MAX then code else U16_MAX, pressed, time))
  }

  /** A fraction of a side stays on that side. */
  function Scale(f: real, side: real): (v: real)
    requires 0.0 <= f <= 1.0 && side >= 0.0
    ensures 0.0 <= v <= side
  {
    f * side
  }

  /** A motion, relative or absolute, reports a pixel of the framebuffer and leaves the scroll accumulators
      alone; an absolute one reaches the first and the last pixel of a side at 0 and at 1. */
  lemma MotionOnScreen(s: Screen, i: Input, time: Card32)
    requires i.Motion? || i.MotionAbsolute?
    ensures var (t, h) := Map(s, i, time);
            && h.HostMotion? && h.motionTime == time
            && 0 <= h.x < Max(s.fbW, 1) && 0 <= h.y < Max(s.fbH, 1)
            && t.accX == s.accX && t.accY == s.accY && t.fbW == s.fbW && t.fbH == s.fbH
            && (i.MotionAbsolute? && i.xNorm <= 0.0 ==> h.x == 0)
            && (i.MotionAbsolute? && i.xNorm >= 1.0 ==> h.x == Min(Max(s.fbW, 1) - 1, I32_MAX))
            && (i.MotionAbsolute? && i.yNorm <= 0.0 ==> h.y == 0)
            && (i.MotionAbsolute? && i.yNorm >= 1.0 ==> h.y == Min(Max(s.fbH, 1) - 1, I32_MAX))
  {
    FloorBelow(Map(s, i, time).0.cursorX, Max(s.fbW, 1));
    FloorBelow(Map(s, i, time).0.cursorY, Max(s.fbH, 1));
    hide Scale;
    ScaleEnds(LastPixel(s.fbW));
    ScaleEnds(LastPixel(s.fbH));
    LastPixelFloor(s.fbW);
    LastPixelFloor(s.fbH);
  }

  lemma ScaleEnds(side: real)
    requires side >= 0.0
    ensures Scale(0.0, side) == 0.0 && Scale(1.0, side) == side
  {
  }

  lemma LastPixelFloor(side: Card32)
    ensures LastPixel(side) >= 0.0 && LastPixel(side).Floor == Max(side, 1) - 1
  {
  }

  lemma MotionReports(s: Screen, time: Card32)
    ensures ReportsPixel(s, MotionAt(s, time))
  {
  }

  /** A relative motion moves the cursor by just that much on each axis, or to the edge if it would go past one;
      the message reports the pixel that the cursor is in. */
  lemma RelativeMotion(s: Screen, dx: real, dy: real, time: Card32)
    ensures var (t, h) := Map(s, Motion(dx, dy), time);
            && (0.0 <= s.cursorX + dx <= LastPixel(s.fbW) ==> t.cursorX - s.cursorX == dx)
            && (0.0 <= s.cursorY + dy <= LastPixel(s.fbH) ==> t.cursorY - s.cursorY == dy)
            && (s.cursorX + dx < 0.0 ==> t.cursorX == 0.0)
            && (s.cursorX + dx > LastPixel(s.fbW) ==> t.cursorX == LastPixel(s.fbW))
            && (s.cursorY + dy < 0.0 ==> t.cursorY == 0.0)
            && (s.cursorY + dy > LastPixel(s.fbH) ==> t.cursorY == LastPixel(s.fbH))
            && ReportsPixel(t, h)
  {
    LastPixelFloor(s.fbW);
    LastPixelFloor(s.fbH);
    hide ReportsPixel, LastPixel, MotionAt;
    MotionReports(Map(s, Motion(dx, dy), time).0, time);
  }

  /** The reported coordinates are those of the pixel, as far as 32 bits hold them. */
  predicate ReportsPixel(s: Screen, h: HostEvent) {
    h.HostMotion?
    && (h.x < I32_MAX ==> h.x as real <= s.cursorX < h.x as real + 1.0) && h.x as real <= s.cursorX
    && (h.y < I32_MAX ==> h.y as real <= s.cursorY < h.y as real + 1.0) && h.y as real <= s.cursorY
  }

  /** `c` is the fraction `v` of the side, and one of its ends for a `v` that is no fraction. */
  predicate AtFraction(c: real, side: real, v: real) {
    (0.0 <= v <= 1.0 ==> c == side * v) && (v <= 0.0 ==> c == 0.0) && (v >= 1.0 ==> c == side)
  }

  lemma ScaledIsFraction(v: real, side: real)
    requires side >= 0.0
    ensures AtFraction(Scale(Clamp(v, 0.0, 1.0), side), side, v)
  {
  }

  /** An absolute motion puts the cursor at that fraction of each side, wherever it was, and reports that pixel. */
  lemma AbsoluteMotion(s: Screen, xNorm: real, yNorm: real, time: Card32)
    ensures var (t, h) := Map(s, MotionAbsolute(xNorm, yNorm), time);
            && AtFraction(t.cursorX, LastPixel(s.fbW), xNorm) && AtFraction(t.cursorY, LastPixel(s.fbH), yNorm)
            && ReportsPixel(t, h)
  {
    LastPixelFloor(s.fbW);
    LastPixelFloor(s.fbH);
    hide ReportsPixel, LastPixel, MotionAt, Scale, Clamp, AtFraction;
    MotionReports(Map(s, MotionAbsolute(xNorm, yNorm), time).0, time);
    ScaledIsFraction(xNorm, LastPixel(s.fbW));
    ScaledIsFraction(yNorm, LastPixel(s.fbH));
  }

  lemma FloorBelow(v: real, n: int)
    requires 0.0 <= v < n as real
    ensures 0 <= v.Floor < n
  {
  }

  // ----- Scrolling -----

  function SaturatingAdd(a: Int32, b: Int32): Int32 {
    if a + b > I32_MAX then I32_MAX else if a + b < -0x8000_0000 then -0x8000_0000 else a + b
  }

  /** Whole clicks in an accumulator, towards zero. */
  function WholeClicks(acc: int): int {
    if acc >= 0 then acc / 120 else -((-acc) / 120)
  }

  function Click(button: Card16, time: Card32): seq<Message> {
    [HostInput(HostButton(button, true, time)), HostInput(HostButton(button, false, time))]
  }

  function Clicks(n: nat, button: Card16, time: Card32): seq<Message> {
    if n == 0 then [] else Click(button, time) + Clicks(n - 1, button, time)
  }

  /** Clicks towards the positive or the negative button. */
  function AxisClicks(clicks: int, positive: Card16, negative: Card16, time: Card32): seq<Message> {
    if clicks >= 0 then Clicks(clicks, positive, time) else Clicks(-clicks, negative, time)
  }

  function Remainder(acc: Int32): Int32 {
    acc - 120 * WholeClicks(acc)
  }

  function DrainScroll(s: Screen, dx: Int32, dy: Int32, time: Card32): (Screen, seq<Message>) {
    var y, x := SaturatingAdd(s.accY, dy), SaturatingAdd(s.accX, dx);
    (s.(accX := Remainder(x), accY := Remainder(y)),
     AxisClicks(WholeClicks(y), SYNTH_SCROLL_DOWN, SYNTH_SCROLL_UP, time)
     + AxisClicks(WholeClicks(x), SYNTH_SCROLL_RIGHT, SYNTH_SCROLL_LEFT, time))
  }

  // ----- What a batch means, before coalescing -----

  predicate IsMotion(m: Message) {
    m.HostInput? && m.event.HostMotion?
  }

  function Command(h: Hotkey): Message {
    match h
    case Zap => Shutdown
    case DumpScanout => ScanoutDump
    case DumpDrawables => DrawablesDump
    case SwitchVt(vt) => VtSwitch(vt)
  }

  /** A hotkey replaces its event. */
  function Expand(s: Screen, e: Event, time: Card32): (Screen, seq<Message>) {
    if e.hotkey.Some? then (s, [Command(e.hotkey.value)])
    else
      match e.input
      case DeviceAdded(info) => (s, [HostInput(HostAdded(info))])
      case DeviceRemoved(node) => (s, [HostInput(HostRemoved(node))])
      case Scroll(dx, dy) => DrainScroll(s, dx, dy, time)
      case _ =>
        var (t, h) := Map(s, e.input, time);
        (t, [HostInput(h)])
  }

  predicate IsZap(e: Event) {
    e.hotkey == Some(Zap)
  }

  /** Nothing after a zap is looked at. */
  function ExpandAll(s: Screen, es: seq<Event>, time: Card32): (Screen, seq<Message>)
    decreases |es|
  {
    if es == [] then (s, [])
    else
      var (t, ms) := Expand(s, es[0], time);
      if IsZap(es[0]) then (t, ms)
      else
        var (u, rest) := ExpandAll(t, es[1..], time);
        (u, ms + rest)
  }

  // ----- Coalescing -----

  /** A motion is dropped when the next message is another motion, or the shutdown. */
  predicate Supersedes(next: Message) {
    IsMotion(next) || next.Shutdown?
  }

  function Coalesce(ms: seq<Message>): seq<Message>
    decreases |ms|
  {
    if |ms| < 2 then ms
    else if IsMotion(ms[0]) && Supersedes(ms[1]) then Coalesce(ms[1..])
    else [ms[0]] + Coalesce(ms[1..])
  }

  /** The motion at the end, which may still be superseded by the next batch. */
  function Trailing(ms: seq<Message>): Option<HostEvent> {
    if ms != [] && IsMotion(ms[|ms| - 1]) then Some(ms[|ms| - 1].event) else None
  }

  function Pending(p: Option<HostEvent>): seq<Message> {
    if p.Some? then [HostInput(p.value)] else []
  }

  /** What can be sent now: the coalesced stream but for a motion at its end. */
  function Settled(ms: seq<Message>): seq<Message> {
    var c := Coalesce(ms);
    if Trailing(c).Some? then c[..|c| - 1] else c
  }

  function Survivor(m: Message, next: Message): seq<Message> {
    if IsMotion(m) && Supersedes(next) then [] else [m]
  }

  lemma CoalesceStep(m: Message, rest: seq<Message>)
    requires rest != []
    ensures Coalesce([m] + rest) == Survivor(m, rest[0]) + Coalesce(rest)
  {
    assert ([m] + rest)[1..] == rest;
    assert [] + Coalesce(rest) == Coalesce(rest);
  }

  lemma {:induction false} CoalesceEnd(ms: seq<Message>)
    ensures ms != [] ==> Coalesce(ms) != [] && Coalesce(ms)[|Coalesce(ms)| - 1] == ms[|ms| - 1]
    ensures ms == [] ==> Coalesce(ms) == []
    ensures Trailing(Coalesce(ms)) == Trailing(ms)
    ensures Coalesce(ms) == Settled(ms) + Pending(Trailing(ms))
    decreases |ms|
  {
    hide Coalesce;
    if |ms| < 2 {
      CoalesceSmall(if ms == [] then Shutdown else ms[0]);
      assert ms == [] || ms == [ms[0]];
    } else {
      CoalesceEnd(ms[1..]);
      CoalesceStep(ms[0], ms[1..]);
      assert [ms[0]] + ms[1..] == ms;
      assert Coalesce(ms)[|Coalesce(ms)| - 1] == ms[|ms| - 1];
    }
  }

  lemma SettledStep(m: Message, rest: seq<Message>)
    requires rest != []
    ensures Settled([m] + rest) == Survivor(m, rest[0]) + Settled(rest)
    ensures Trailing([m] + rest) == Trailing(rest)
  {
    hide Coalesce;
    CoalesceStep(m, rest);
    CoalesceEnd(rest);
    CoalesceEnd([m] + rest);
  }

  lemma CoalesceSmall(m: Message)
    ensures Coalesce([]) == [] && Coalesce([m]) == [m]
    ensures Settled([]) == [] && Settled([m]) == if IsMotion(m) then [] else [m]
  {
  }

  /** What has settled stays; only the trailing motion depends on what follows. */
  lemma {:induction false} CoalesceSplit(a: seq<Message>, b: seq<Message>)
    ensures Coalesce(a + b) == Settled(a) + Coalesce(Pending(Trailing(a)) + b)
    decreases |a|
  {
    hide Coalesce, Settled;
    if a == [] {
      assert a + b == b && Pending(None) + b == b;
      assert Settled([]) == [] by {
        CoalesceSmall(Shutdown);
      }
    } else if |a| == 1 {
      CoalesceSmall(a[0]);
      assert a == [a[0]];
      if !IsMotion(a[0]) {
        assert Pending(None) + b == b;
        SkipFirst(a[0], b);
      } else {
        assert Pending(Trailing(a)) == a;
        assert [] + Coalesce(a + b) == Coalesce(a + b);
      }
    } else {
      var rest := a[1..];
      assert [a[0]] + rest == a;
      assert [a[0]] + (rest + b) == a + b;
      CoalesceSplit(rest, b);
      CoalesceStep(a[0], rest + b);
      SettledStep(a[0], rest);
      SeqAssoc(Survivor(a[0], rest[0]), Settled(rest), Coalesce(Pending(Trailing(a)) + b));
    }
  }

  lemma SkipFirst(m: Message, b: seq<Message>)
    requires !IsMotion(m)
    ensures Coalesce([m] + b) == [m] + Coalesce(b)
  {
    if b == [] {
      assert [m] + b == [m];
    } else {
      CoalesceStep(m, b);
    }
  }

  /** The batch function: new state, messages sent, motion still pending. */
  function Batch(s: Screen, pending: Option<HostEvent>, es: seq<Event>, time: Card32)
    : (Screen, seq<Message>, Option<HostEvent>)
  {
    var (t, ms) := ExpandAll(s, es, time);
    (t, Settled(Pending(pending) + ms), Trailing(Pending(pending) + ms))
  }

  lemma {:induction false} ExpandConcat(s: Screen, a: seq<Event>, b: seq<Event>, time: Card32)
    requires forall e :: e in a ==> !IsZap(e)
    ensures var (t, ms) := ExpandAll(s, a, time);
            var (u, ns) := ExpandAll(t, b, time);
            ExpandAll(s, a + b, time) == (u, ms + ns)
    decreases |a|
  {
    if a == [] {
      assert a + b == b;
      assert [] + ExpandAll(s, b, time).1 == ExpandAll(s, b, time).1;
    } else {
      assert a[0] in a;
      assert (a + b)[1..] == a[1..] + b;
      var (t, ms) := Expand(s, a[0], time);
      ExpandConcat(t, a[1..], b, time);
      var (u, rest) := ExpandAll(t, a[1..], time);
      SeqAssoc(ms, rest, ExpandAll(u, b, time).1);
    }
  }

  /** A key or a button on its own is sent at once, a press as a press and a release as a release. A key has its
      code plus 8, as X counts keys, cut to eight bits; a button its code, if sixteen bits hold it. Neither moves
      the cursor or the wheel. */
  lemma KeysAndButtons(s: Screen, e: Event, time: Card32)
    requires e.hotkey.None? && (e.input.Key? || e.input.Button?)
    ensures var (t, sent, pending) := Batch(s, None, [e], time);
            && t == s && pending == None && |sent| == 1 && sent[0].HostInput?
            && var h := sent[0].event;
               && (e.input.Key? ==>
                     && h.HostKey? && h.keyDown == e.input.down && h.keyTime == time
                     && 0 <= h.hostKeycode < 0x100 && (e.input.keycode + 8 - h.hostKeycode) % 0x100 == 0
                     && (e.input.keycode <= 247 ==> h.hostKeycode == e.input.keycode + 8)
                     && h.rootX as real <= s.cursorX && (h.rootX < I16_MAX ==> s.cursorX < h.rootX as real + 1.0)
                     && h.rootY as real <= s.cursorY && (h.rootY < I16_MAX ==> s.cursorY < h.rootY as real + 1.0))
               && (e.input.Button? ==>
                     && h.HostButton? && h.buttonDown == e.input.pressed && h.buttonTime == time
                     && h.button == Min(e.input.code, U16_MAX))
  {
    LoneEvent(s, e, time);
  }

  /** What a batch of one event sends, if that is a single message and no motion. */
  lemma LoneEvent(s: Screen, e: Event, time: Card32)
    requires var ms := Expand(s, e, time).1; |ms| == 1 && !IsMotion(ms[0])
    ensures Batch(s, None, [e], time) == (Expand(s, e, time).0, Expand(s, e, time).1, None)
  {
    var (t, ms) := Expand(s, e, time);
    assert ExpandAll(t, [], time) == (t, []);
    assert [e][1..] == [];
    assert ms + [] == ms;
    assert ExpandAll(s, [e], time) == (t, ms);
    assert Pending(None) + ms == ms == [ms[0]];
    hide Expand, ExpandAll, Settled, Coalesce;
    CoalesceSmall(ms[0]);
  }

  /** A hotkey or a change of devices on its own sends the one message that belongs to it, and nothing of the key. */
  lemma CommandsSent(s: Screen, e: Event, time: Card32)
    ensures e.hotkey == Some(Zap) ==> Batch(s, None, [e], time) == (s, [Shutdown], None)
    ensures e.hotkey == Some(DumpScanout) ==> Batch(s, None, [e], time) == (s, [ScanoutDump], None)
    ensures e.hotkey == Some(DumpDrawables) ==> Batch(s, None, [e], time) == (s, [DrawablesDump], None)
    ensures e.hotkey.Some? && e.hotkey.value.SwitchVt? ==>
              Batch(s, None, [e], time) == (s, [VtSwitch(e.hotkey.value.vt)], None)
    ensures e.hotkey.None? && e.input.DeviceAdded? ==>
              Batch(s, None, [e], time) == (s, [HostInput(HostAdded(e.input.info))], None)
    ensures e.hotkey.None? && e.input.DeviceRemoved? ==>
              Batch(s, None, [e], time) == (s, [HostInput(HostRemoved(e.input.node))], None)
  {
    if e.hotkey.Some? || e.input.DeviceAdded? || e.input.DeviceRemoved? {
      LoneEvent(s, e, time);
      hide Batch;
    }
  }

  /** Cutting a batch in two changes nothing, as long as no zap comes before the cut. */
  lemma BatchSplit(s: Screen, pending: Option<HostEvent>, a: seq<Event>, b: seq<Event>, time: Card32)
    requires forall e :: e in a ==> !IsZap(e)
    ensures var (t, sent, p) := Batch(s, pending, a, time);
            var (u, more, q) := Batch(t, p, b, time);
            Batch(s, pending, a + b, time) == (u, sent + more, q)
  {
    hide Settled, Coalesce, ExpandAll;
    var (t, ms) := ExpandAll(s, a, time);
    var ns := ExpandAll(t, b, time).1;
    ExpandConcat(s, a, b, time);
    SeqAssoc(Pending(pending), ms, ns);
    SettledSplit(Pending(pending) + ms, ns);
  }

  lemma SettledSplit(a: seq<Message>, b: seq<Message>)
    ensures Settled(a + b) == Settled(a) + Settled(Pending(Trailing(a)) + b)
    ensures Trailing(a + b) == Trailing(Pending(Trailing(a)) + b)
  {
    var p := Pending(Trailing(a)) + b;
    assert Trailing(a + b) == Trailing(p) by {
      if b == [] {
        assert a + b == a && p == Pending(Trailing(a));
      }
    }
    hide Coalesce, Settled, Trailing;
    CoalesceSplit(a, b);
    CoalesceEnd(a + b);
    CoalesceEnd(p);
    SeqAssoc(Settled(a), Settled(p), Pending(Trailing(p)));
    SameTail(Settled(a + b), Settled(a) + Settled(p), Pending(Trailing(p)));
  }

  lemma SameTail(a: seq<Message>, b: seq<Message>, t: seq<Message>)
    requires a + t == b + t
    ensures a == b
  {
    assert |a| == |b|;
    assert a == (a + t)[..|a|] && b == (b + t)[..|b|];
  }

  lemma ShutdownDropsPending(p: Option<HostEvent>)
    requires p.Some? ==> p.value.HostMotion?
    ensures Settled(Pending(p) + [Shutdown]) == [Shutdown]
  {
    CoalesceSmall(Shutdown);
    if p.Some? {
      SettledStep(HostInput(p.value), [Shutdown]);
    } else {
      assert Pending(p) + [Shutdown] == [Shutdown];
    }
  }

  /** A zap ends its batch: the rest of the events do not matter, and no motion stays pending. */
  lemma ZapEndsBatch(s: Screen, pending: Option<HostEvent>, a: seq<Event>, zap: Event, b: seq<Event>, time: Card32)
    requires IsZap(zap) && forall e :: e in a ==> !IsZap(e)
    ensures var (t, sent, _) := Batch(s, pending, a, time);
            Batch(s, pending, a + ([zap] + b), time) == (t, sent + [Shutdown], None)
  {
    var (t, ms) := ExpandAll(s, a, time);
    assert ExpandAll(t, [zap] + b, time) == (t, [Shutdown]);
    hide Settled, Coalesce, ExpandAll;
    ExpandConcat(s, a, [zap] + b, time);
    SeqAssoc(Pending(pending), ms, [Shutdown]);
    SettledSplit(Pending(pending) + ms, [Shutdown]);
    ShutdownDropsPending(Trailing(Pending(pending) + ms));
  }

  predicate HasZap(es: seq<Event>) {
    exists e :: e in es && IsZap(e)
  }

  lemma FirstZap(es: seq<Event>) returns (i: nat)
    requires HasZap(es)
    ensures i < |es| && IsZap(es[i]) && forall e :: e in es[..i] ==> !IsZap(e)
  {
    var k :| 0 <= k < |es| && IsZap(es[k]);
    i := 0;
    while !IsZap(es[i])
      invariant i <= k && forall e :: e in es[..i] ==> !IsZap(e)
      decreases k - i
    {
      assert es[..i + 1] == es[..i] + [es[i]];
      i := i + 1;
    }
  }

  /** A batch with a zap in it does not change when more events are added behind. */
  lemma ZapHidesRest(s: Screen, pending: Option<HostEvent>, a: seq<Event>, b: seq<Event>, time: Card32)
    requires HasZap(a)
    ensures Batch(s, pending, a + b, time) == Batch(s, pending, a, time) && Batch(s, pending, a, time).2 == None
  {
    var i := FirstZap(a);
    assert a == a[..i] + ([a[i]] + a[i + 1..]);
    assert a + b == a[..i] + ([a[i]] + (a[i + 1..] + b));
    hide Batch;
    ZapEndsBatch(s, pending, a[..i], a[i], a[i + 1..], time);
    ZapEndsBatch(s, pending, a[..i], a[i], a[i + 1..] + b, time);
  }

  lemma NothingSent(ms: seq<Message>)
    ensures Settled(ms) == [] && Trailing(ms) == None <==> ms == []
  {
    CoalesceEnd(ms);
  }

  /** Cutting a batch in two gives the same result exactly when there is no zap before the cut, or nothing
      comes of the events behind it: the second of two batches is not kept from running by a zap in the first. */
  lemma BatchSplitIff(s: Screen, pending: Option<HostEvent>, a: seq<Event>, b: seq<Event>, time: Card32)
    ensures var (t, sent, p) := Batch(s, pending, a, time);
            var (u, more, q) := Batch(t, p, b, time);
            Batch(s, pending, a + b, time) == (u, sent + more, q)
            <==> !HasZap(a) || ExpandAll(t, b, time) == (t, [])
  {
    if !HasZap(a) {
      BatchSplit(s, pending, a, b, time);
    } else {
      ZapHidesRest(s, pending, a, b, time);
      var (t, sent, p) := Batch(s, pending, a, time);
      var ms := ExpandAll(t, b, time).1;
      assert Pending(None) + ms == ms;
      NothingSent(ms);
      hide Settled, ExpandAll;
      assert forall more: seq<Message> :: sent == sent + more ==> more == [] by {
        forall more: seq<Message> | sent == sent + more ensures more == [] {
          assert |more| == 0;
        }
      }
      assert sent + [] == sent;
    }
  }

  /** A zap and a key press behind it: in one batch the key is dropped, in two it is sent. */
  lemma SplitAtZapDiffers(s: Screen, pending: Option<HostEvent>, key: Card32, time: Card32)
    ensures var a, b := [Event(Key(14, true), Some(Zap))], [Event(Key(key, true), None)];
            var (t, sent, p) := Batch(s, pending, a, time);
            var (u, more, q) := Batch(t, p, b, time);
            Batch(s, pending, a + b, time) != (u, sent + more, q)
  {
    var a, b := [Event(Key(14, true), Some(Zap))], [Event(Key(key, true), None)];
    assert a[0] in a && IsZap(a[0]);
    BatchSplitIff(s, pending, a, b, time);
    var t := Batch(s, pending, a, time).0;
    assert b[1..] == [];
    assert |ExpandAll(t, b, time).1| == 1;
  }

  // ----- The thread -----

  lemma {:induction false} ClicksSnoc(n: nat, button: Card16, time: Card32)
    ensures Clicks(n, button, time) + Click(button, time) == Clicks(n + 1, button, time)
  {
    if n == 0 {
    } else {
      ClicksSnoc(n - 1, button, time);
      SeqAssoc(Click(button, time), Clicks(n - 1, button, time), Click(button, time));
    }
  }

  lemma WholeClicksUnique(acc: int, k: int, rest: int)
    requires acc == 120 * k + rest
    requires if acc >= 0 then 0 <= rest < 120 else -120 < rest <= 0
    ensures WholeClicks(acc) == k
  {
  }

  /** Sending one message other than a motion sends the pending motion first. */
  lemma SettledSend(stream: seq<Message>, m: Message)
    requires !IsMotion(m) && !m.Shutdown?
    ensures Settled(stream + [m]) == Settled(stream) + Pending(Trailing(stream)) + [m]
    ensures Trailing(stream + [m]) == None
  {
    SettledSplit(stream, [m]);
    var p := Trailing(stream);
    CoalesceSmall(m);
    if p.Some? {
      SettledStep(HostInput(p.value), [m]);
    } else {
      assert Pending(p) + [m] == [m];
    }
    SeqAssoc(Settled(stream), Pending(p), [m]);
  }

  /** A motion replaces the pending one. */
  lemma SettledMove(stream: seq<Message>, m: Message)
    requires IsMotion(m)
    ensures Settled(stream + [m]) == Settled(stream)
    ensures Trailing(stream + [m]) == Some(m.event)
  {
    SettledSplit(stream, [m]);
    var p := Trailing(stream);
    CoalesceSmall(m);
    if p.Some? {
      SettledStep(HostInput(p.value), [m]);
    } else {
      assert Pending(p) + [m] == [m];
    }
  }

  lemma SettledShutdown(stream: seq<Message>)
    ensures Settled(stream + [Shutdown]) == Settled(stream) + [Shutdown]
    ensures Trailing(stream + [Shutdown]) == None
  {
    SettledSplit(stream, [Shutdown]);
    ShutdownDropsPending(Trailing(stream));
  }

  class LibinputThread {
    var state: Screen
    var pending: Option<HostEvent>
    var sent: seq<Message>

    ghost predicate Valid() reads this {
      pending.Some? ==> pending.value.HostMotion?
    }

    constructor (fbW: Card32, fbH: Card32)
      ensures Valid() && pending == None && sent == []
      ensures state == State(fbW as real / 2.0, fbH as real / 2.0, fbW, fbH, 0, 0)
    {
      state := State(fbW as real / 2.0, fbH as real / 2.0, fbW, fbH, 0, 0);
      pending, sent := None, [];
    }

    /** Turns one accumulator into clicks; `acc` is its value before the event's delta. */
    static method DrainAxis(acc: Int32, delta: Int32, positive: Card16, negative: Card16, time: Card32)
      returns (rest: Int32, out: seq<Message>)
      ensures rest == Remainder(SaturatingAdd(acc, delta))
      ensures out == AxisClicks(WholeClicks(SaturatingAdd(acc, delta)), positive, negative, time)
    {
      var start := SaturatingAdd(acc, delta);
      rest, out := start, [];
      ghost var n := 0;
      while rest >= V120_PER_CLICK
        invariant start == 120 * n + rest && (start >= 0 ==> rest >= 0) && (start < 0 ==> n == 0)
        invariant out == Clicks(n, positive, time)
      {
        rest := rest - V120_PER_CLICK;
        out := out + Click(positive, time);
        ClicksSnoc(n, positive, time);
        n := n + 1;
      }
      ghost var m := 0;
      while rest <= -V120_PER_CLICK
        invariant start == 120 * n - 120 * m + rest && (start < 0 ==> rest <= 0 && n == 0) && (start >= 0 ==> m == 0)
        invariant start >= 0 ==> 0 <= rest < 120
        invariant start >= 0 ==> out == Clicks(n, positive, time)
        invariant start < 0 ==> out == Clicks(m, negative, time)
      {
        rest := rest + V120_PER_CLICK;
        out := out + Click(negative, time);
        ClicksSnoc(m, negative, time);
        m := m + 1;
      }
      WholeClicksUnique(start, n - m, rest);
    }

    method DrainScrollInto(dx: Int32, dy: Int32, time: Card32) returns (out: seq<Message>)
      modifies this`state
      ensures (state, out) == DrainScroll(old(state), dx, dy, time)
    {
      hide WholeClicks, Clicks;
      var y, outY := DrainAxis(state.accY, dy, SYNTH_SCROLL_DOWN, SYNTH_SCROLL_UP, time);
      var x, outX := DrainAxis(state.accX, dx, SYNTH_SCROLL_RIGHT, SYNTH_SCROLL_LEFT, time);
      state := state.(accX := x, accY := y);
      out := outY + outX;
    }

    method FlushPending()
      modifies this`sent, this`pending
      ensures sent == old(sent) + Pending(old(pending)) && pending == None
    {
      if pending.Some? {
        sent := sent + [HostInput(pending.value)];
        pending := None;
      }
    }

    /** Sends a message that is not a motion, behind the pending motion. */
    method SendInOrder(m: Message, ghost start: seq<Message>, ghost stream: seq<Message>)
      requires !IsMotion(m) && !m.Shutdown?
      requires sent == start + Settled(stream) && pending == Trailing(stream)
      modifies this`sent, this`pending
      ensures sent == start + Settled(stream + [m]) && pending == Trailing(stream + [m])
    {
      hide Settled, Trailing;
      SettledSend(stream, m);
      FlushPending();
      sent := sent + [m];
      SeqAssoc(start, Settled(stream), Pending(Trailing(stream)));
      SeqAssoc(start, Settled(stream) + Pending(Trailing(stream)), [m]);
    }

    method SendClicks(out: seq<Message>, ghost start: seq<Message>, ghost stream: seq<Message>)
      requires forall m :: m in out ==> !IsMotion(m) && !m.Shutdown?
      requires sent == start + Settled(stream) && pending == Trailing(stream)
      modifies this`sent, this`pending
      ensures sent == start + Settled(stream + out) && pending == Trailing(stream + out)
    {
      hide Settled, Trailing;
      assert stream + out[..0] == stream;
      for i := 0 to |out|
        invariant sent == start + Settled(stream + out[..i]) && pending == Trailing(stream + out[..i])
      {
        assert out[i] in out;
        SendInOrder(out[i], start, stream + out[..i]);
        assert stream + out[..i] + [out[i]] == stream + out[..i + 1];
      }
      assert out[..|out|] == out;
    }

    lemma {:induction false} ClicksAreButtons(n: nat, button: Card16, time: Card32)
      ensures forall m :: m in Clicks(n, button, time) ==> !IsMotion(m) && !m.Shutdown?
    {
      if n == 0 {
      } else {
        ClicksAreButtons(n - 1, button, time);
      }
    }

    /** One event that is not a zap. */
    method ProcessEvent(e: Event, time: Card32, ghost start: seq<Message>, ghost stream: seq<Message>)
      requires Valid() && !IsZap(e)
      requires sent == start + Settled(stream) && pending == Trailing(stream)
      modifies this
      ensures Valid()
      ensures var (t, ms) := Expand(old(state), e, time);
              state == t && sent == start + Settled(stream + ms) && pending == Trailing(stream + ms)
    {
      hide Settled, Clicks, WholeClicks;
      if e.hotkey.Some? {
        SendInOrder(Command(e.hotkey.value), start, stream);
        return;
      }
      if e.input.DeviceAdded? {
        SendInOrder(HostInput(HostAdded(e.input.info)), start, stream);
      } else if e.input.DeviceRemoved? {
        SendInOrder(HostInput(HostRemoved(e.input.node)), start, stream);
      } else if e.input.Scroll? {
        var out := DrainScrollInto(e.input.dxV120, e.input.dyV120, time);
        forall n: nat, b: Card16, m | m in Clicks(n, b, time) ensures !IsMotion(m) && !m.Shutdown? {
          ClicksAreButtons(n, b, time);
        }
        SendClicks(out, start, stream);
      } else {
        var (t, h) := Map(state, e.input, time);
        state := t;
        if h.HostMotion? {
          SettledMove(stream, HostInput(h));
          pending := Some(h);
        } else {
          SendInOrder(HostInput(h), start, stream);
        }
      }
    }

    /** What is sent, and what stays pending, is the coalesced stream of the batch. */
    method ProcessBatch(events: seq<Event>, time: Card32)
      requires Valid()
      modifies this
      ensures Valid()
      ensures var (t, out, p) := Batch(old(state), old(pending), events, time);
              state == t && sent == old(sent) + out && pending == p
    {
      hide Settled, Expand;
      ghost var s0, start, stream := state, sent, Pending(pending);
      PendingIsStream(pending);
      assert events[0..] == events;
      for i := 0 to |events|
        invariant Valid()
        invariant sent == start + Settled(stream) && pending == Trailing(stream)
        invariant ExpandAll(s0, events, time).0 == ExpandAll(state, events[i..], time).0
        invariant Pending(old(pending)) + ExpandAll(s0, events, time).1
               == stream + ExpandAll(state, events[i..], time).1
      {
        var e := events[i];
        assert events[i..][0] == e && events[i..][1..] == events[i + 1..];
        ghost var ms := Expand(state, e, time).1;
        if e.hotkey == Some(Zap) {
          pending := None;
          sent := sent + [Shutdown];
          SettledShutdown(stream);
          SeqAssoc(start, Settled(stream), [Shutdown]);
          ZapExpands(state, e, time);
          return;
        }
        SeqAssoc(stream, ms, ExpandAll(Expand(state, e, time).0, events[i + 1..], time).1);
        ProcessEvent(e, time, start, stream);
        stream := stream + ms;
      }
      assert events[|events|..] == [];
      assert stream + [] == stream;
    }
  }

  lemma ZapExpands(s: Screen, e: Event, time: Card32)
    requires IsZap(e)
    ensures Expand(s, e, time) == (s, [Shutdown])
  {
  }

  lemma PendingIsStream(p: Option<HostEvent>)
    requires p.Some? ==> p.value.HostMotion?
    ensures Settled(Pending(p)) == [] && Trailing(Pending(p)) == p
  {
    if p.Some? {
      CoalesceSmall(HostInput(p.value));
    } else {
      CoalesceSmall(Shutdown);
    }
  }
}
