/** The Present queue: frames wait per window for a vblank that suits them. */
module Present {
  import opened Ints
  import opened Wrappers
  import opened Sequences

  type Window = nat
  type Handle = nat

  /** A queued request, as far as scheduling looks at it. */
  datatype Frame = Frame(serial: Card32, window: Window, targetMsc: Card64, divisor: Card64, remainder: Card64)

  predicate ScheduleSatisfied(f: Frame, msc: Card64) {
    msc >= f.targetMsc && (f.divisor != 0 ==> msc % f.divisor == f.remainder)
  }

  // ----- When a frame can be shown at all -----

  /** The target itself, or the first counter value from it on that leaves the frame's remainder. */
  function FirstMatch(f: Frame): (m: nat) {
    if f.divisor == 0 then f.targetMsc
    else f.targetMsc as int + (f.remainder as int - f.targetMsc as int) % f.divisor as int
  }

  /** A frame without a divisor is due from its target on; one with a divisor at its first match and whole
      numbers of periods later, if its remainder is one that the divisor can leave. */
  ghost predicate DueAt(f: Frame, msc: int) {
    if f.divisor == 0 then f.targetMsc <= msc
    else f.remainder < f.divisor && exists k: nat :: msc == Later(f, k)
  }

  function Later(f: Frame, periods: nat): nat {
    FirstMatch(f) + periods * f.divisor
  }

  lemma MultipleIsLarge(d: int, e: int)
    requires d > 0
    ensures e >= 1 ==> d * e >= d
    ensures e <= -1 ==> d * e <= -d
  {
  }

  lemma QuotientIsUnique(a: int, q: int, r: int, d: nat)
    requires d > 0 && 0 <= r < d && a == d * q + r
    ensures a % d == r && a / d == q
  {
    assert d * (a / d - q) == r - a % d;
    MultipleIsLarge(d, a / d - q);
  }

  lemma FirstMatchRemainder(f: Frame)
    requires f.divisor > 0 && f.remainder < f.divisor
    ensures FirstMatch(f) % f.divisor == f.remainder
  {
    var t: int, d: nat, r: int := f.targetMsc, f.divisor, f.remainder;
    assert FirstMatch(f) == d * (-((r - t) / d)) + r;
    QuotientIsUnique(FirstMatch(f), -((r - t) / d), r, d);
  }

  lemma PeriodsApart(f: Frame, m: Card64) returns (k: nat)
    requires f.divisor > 0 && ScheduleSatisfied(f, m)
    ensures f.remainder < f.divisor && m == Later(f, k)
  {
    FirstMatchRemainder(f);
    var d: nat := f.divisor;
    var n := m / d - FirstMatch(f) / d;
    assert d * n == m - FirstMatch(f);
    MultipleIsLarge(d, n);
    k := n;
  }

  lemma LaterMatches(f: Frame, k: nat)
    requires f.divisor > 0 && f.remainder < f.divisor
    ensures f.targetMsc <= Later(f, k) && Later(f, k) % f.divisor == f.remainder
  {
    FirstMatchRemainder(f);
    var d: nat := f.divisor;
    assert Later(f, k) == d * (FirstMatch(f) / d + k) + f.remainder;
    QuotientIsUnique(Later(f, k), FirstMatch(f) / d + k, f.remainder, d);
  }

  /** The test that the scheduler makes, with a divisor or without. */
  lemma SatisfiedIff(f: Frame, m: Card64)
    ensures ScheduleSatisfied(f, m) <==> DueAt(f, m)
  {
    if f.divisor > 0 {
      if ScheduleSatisfied(f, m) {
        var k := PeriodsApart(f, m);
      }
      if DueAt(f, m) {
        var k: nat :| m == Later(f, k);
        LaterMatches(f, k);
      }
    }
  }

  /** A frame without a divisor becomes due, first at its target. One with a divisor is due within one period
      after its target, first at `FirstMatch`, when its remainder is one the divisor can leave and the counter
      does not overflow first; else it is never due. */
  lemma DueIff(f: Frame)
    ensures (exists m: Card64 :: ScheduleSatisfied(f, m))
       <==> f.divisor == 0 || (f.remainder < f.divisor && FirstMatch(f) <= 0xFFFF_FFFF_FFFF_FFFF)
    ensures f.divisor == 0 ==> FirstMatch(f) == f.targetMsc
    ensures f.divisor > 0 ==> f.targetMsc <= FirstMatch(f) < f.targetMsc as int + f.divisor as int
    ensures forall m: Card64 :: ScheduleSatisfied(f, m) ==> FirstMatch(f) <= m
  {
    if f.divisor == 0 {
      assert ScheduleSatisfied(f, f.targetMsc);
    } else if f.remainder < f.divisor && FirstMatch(f) <= 0xFFFF_FFFF_FFFF_FFFF {
      FirstMatchRemainder(f);
      var m: Card64 := FirstMatch(f);
      assert ScheduleSatisfied(f, m);
    }
    forall m: Card64 | ScheduleSatisfied(f, m)
      ensures f.divisor > 0 ==> f.remainder < f.divisor && FirstMatch(f) <= m
    {
      if f.divisor > 0 {
        var k := PeriodsApart(f, m);
      }
    }
  }

  // ----- Picking at a vblank -----

  datatype Picked = Picked(chosen: Option<Frame>, skipped: seq<Frame>, left: seq<Frame>)

  function Pick(q: seq<Frame>, msc: Card64): Picked
    decreases |q|
  {
    if q == [] then Picked(None, [], [])
    else
      var n := |q| - 1;
      if ScheduleSatisfied(q[n], msc) then Picked(Some(q[n]), q[..n], [])
      else
        var p := Pick(q[..n], msc);
        p.(left := p.left + [q[n]])
  }

  /** The queue is cut at the latest frame that is due: earlier frames are skipped whether due or not,
      and no frame left in the queue is due. */
  lemma {:induction false} PickIsLatest(q: seq<Frame>, msc: Card64)
    ensures var p := Pick(q, msc);
            && q == p.skipped + (if p.chosen.Some? then [p.chosen.value] else []) + p.left
            && (p.chosen.Some? ==> ScheduleSatisfied(p.chosen.value, msc))
            && (p.chosen.None? ==> p.skipped == [])
            && (forall f :: f in p.left ==> !ScheduleSatisfied(f, msc))
    decreases |q|
  {
    if q == [] {
    } else {
      var n := |q| - 1;
      assert q == q[..n] + [q[n]];
      if !ScheduleSatisfied(q[n], msc) {
        PickIsLatest(q[..n], msc);
      }
    }
  }

  /** These facts leave no other choice. */
  lemma PickUnique(q: seq<Frame>, msc: Card64, i: nat)
    requires i < |q| && ScheduleSatisfied(q[i], msc)
    requires forall j :: i < j < |q| ==> !ScheduleSatisfied(q[j], msc)
    ensures Pick(q, msc) == Picked(Some(q[i]), q[..i], q[i + 1..])
    decreases |q|
  {
    hide ScheduleSatisfied;
    var n := |q| - 1;
    var front := q[..n];
    if i < n {
      assert front[i] == q[i] && forall j :: i < j < n ==> front[j] == q[j];
      PickUnique(front, msc, i);
      assert front[..i] == q[..i];
      assert front[i + 1..] + [q[n]] == q[i + 1..];
    } else {
      assert q[n + 1..] == [];
    }
  }

  lemma PickNothing(q: seq<Frame>, msc: Card64)
    requires forall j :: 0 <= j < |q| ==> !ScheduleSatisfied(q[j], msc)
    ensures Pick(q, msc) == Picked(None, [], q)
    decreases |q|
  {
    if q == [] {
    } else {
      PickNothing(q[..|q| - 1], msc);
      assert q == q[..|q| - 1] + [q[|q| - 1]];
    }
  }

  // ----- The scheduler -----

  datatype State = State(queues: map<Window, seq<Frame>>, flipped: map<Window, Handle>)

  function QueueOf(s: State, w: Window): seq<Frame> {
    if w in s.queues then s.queues[w] else []
  }

  function EnqueueIn(s: State, f: Frame): State {
    s.(queues := s.queues[f.window := QueueOf(s, f.window) + [f]])
  }

  function PickIn(s: State, w: Window, msc: Card64): (State, Picked) {
    var p := Pick(QueueOf(s, w), msc);
    (if w in s.queues then s.(queues := s.queues[w := p.left]) else s, p)
  }

  function DrainIn(s: State, w: Window): (State, seq<Frame>) {
    (State(s.queues - {w}, s.flipped - {w}), QueueOf(s, w))
  }

  function FlipIn(s: State, w: Window, h: Handle): (State, Option<Handle>) {
    (s.(flipped := s.flipped[w := h]), if w in s.flipped then Some(s.flipped[w]) else None)
  }

  class PresentScheduler {
    var queues: map<Window, seq<Frame>>
    var lastFlipped: map<Window, Handle>

    function Value(): State reads this {
      State(queues, lastFlipped)
    }

    constructor ()
      ensures Value() == State(map[], map[])
    {
      queues, lastFlipped := map[], map[];
    }

    method Enqueue(f: Frame)
      modifies this`queues
      ensures Value() == EnqueueIn(old(Value()), f)
    {
      if f.window !in queues {
        queues := queues[f.window := []];
      }
      queues := queues[f.window := queues[f.window] + [f]];
      assert queues == EnqueueIn(old(Value()), f).queues;
    }

    method DrainWindow(w: Window) returns (frames: seq<Frame>)
      modifies this
      ensures (Value(), frames) == DrainIn(old(Value()), w)
    {
      frames := [];
      if w in queues {
        frames := frames + queues[w];
        queues := queues - {w};
      }
      lastFlipped := lastFlipped - {w};
      assert queues == DrainIn(old(Value()), w).0.queues;
      assert frames == QueueOf(old(Value()), w);
    }

    method PickAtVblank(w: Window, msc: Card64) returns (chosen: Option<Frame>, skipped: seq<Frame>)
      modifies this`queues
      ensures var (s, p) := PickIn(old(Value()), w, msc);
              Value() == s && chosen == p.chosen && skipped == p.skipped
    {
      if w !in queues {
        return None, [];
      }
      var q := queues[w];
      var i := |q|;
      while i > 0
        invariant 0 <= i <= |q|
        invariant forall j :: i <= j < |q| ==> !ScheduleSatisfied(q[j], msc)
      {
        i := i - 1;
        if ScheduleSatisfied(q[i], msc) {
          PickUnique(q, msc, i);
          chosen, skipped := Some(q[i]), q[..i];
          queues := queues[w := q[i + 1..]];
          return;
        }
      }
      PickNothing(q, msc);
      assert queues[w := q] == queues;
      return None, [];
    }

    method RecordFlipped(w: Window, h: Handle) returns (previous: Option<Handle>)
      modifies this`lastFlipped
      ensures (Value(), previous) == FlipIn(old(Value()), w, h)
    {
      previous := if w in lastFlipped then Some(lastFlipped[w]) else None;
      lastFlipped := lastFlipped[w := h];
    }
  }

  // ----- Whole runs -----

  datatype Event =
    | Queue(frame: Frame)
    | Vblank(picked: Window, msc: Card64)
    | Destroyed(gone: Window)
    | Flipped(shown: Window, handle: Handle)

  function Step(s: State, e: Event): State {
    match e
    case Queue(f) => EnqueueIn(s, f)
    case Vblank(w, msc) => PickIn(s, w, msc).0
    case Destroyed(w) => DrainIn(s, w).0
    case Flipped(w, h) => FlipIn(s, w, h).0
  }

  datatype Fate = Shown | Skipped | Drained

  datatype Departure = Departure(frame: Frame, fate: Fate)

  function All(fs: seq<Frame>, fate: Fate): (ds: seq<Departure>)
    ensures |ds| == |fs| && forall i :: 0 <= i < |fs| ==> ds[i] == Departure(fs[i], fate)
  {
    seq(|fs|, i requires 0 <= i < |fs| => Departure(fs[i], fate))
  }

  function Frames(ds: seq<Departure>): (fs: seq<Frame>)
    ensures |fs| == |ds| && forall i :: 0 <= i < |ds| ==> fs[i] == ds[i].frame
  {
    seq(|ds|, i requires 0 <= i < |ds| => ds[i].frame)
  }

  /** The frames of `w` that leave the queue in a step, in order, and what becomes of them. */
  function Leaving(s: State, e: Event, w: Window): seq<Departure> {
    match e
    case Vblank(v, msc) =>
      if v == w then
        var p := PickIn(s, w, msc).1;
        All(p.skipped, Skipped) + (if p.chosen.Some? then [Departure(p.chosen.value, Shown)] else [])
      else []
    case Destroyed(v) => if v == w then All(DrainIn(s, w).1, Drained) else []
    case _ => []
  }

  function Arriving(e: Event, w: Window): seq<Frame> {
    if e.Queue? && e.frame.window == w then [e.frame] else []
  }

  function Run(s: State, es: seq<Event>): State
    decreases |es|
  {
    if es == [] then s else Run(Step(s, es[0]), es[1..])
  }

  function AllLeaving(s: State, es: seq<Event>, w: Window): seq<Departure>
    decreases |es|
  {
    if es == [] then [] else Leaving(s, es[0], w) + AllLeaving(Step(s, es[0]), es[1..], w)
  }

  function AllArriving(es: seq<Event>, w: Window): seq<Frame>
    decreases |es|
  {
    if es == [] then [] else Arriving(es[0], w) + AllArriving(es[1..], w)
  }

  lemma FramesConcat(a: seq<Departure>, b: seq<Departure>)
    ensures Frames(a + b) == Frames(a) + Frames(b)
  {
  }

  lemma FramesOfAll(fs: seq<Frame>, fate: Fate)
    ensures Frames(All(fs, fate)) == fs
  {
  }

  lemma StepConserves(s: State, e: Event, w: Window)
    ensures QueueOf(s, w) + Arriving(e, w) == Frames(Leaving(s, e, w)) + QueueOf(Step(s, e), w)
  {
    hide Pick;
    match e {
      case Vblank(v, msc) =>
        if v == w {
          var p := Pick(QueueOf(s, w), msc);
          PickIsLatest(QueueOf(s, w), msc);
          var last := if p.chosen.Some? then [Departure(p.chosen.value, Shown)] else [];
          FramesConcat(All(p.skipped, Skipped), last);
          FramesOfAll(p.skipped, Skipped);
          assert Frames(last) == if p.chosen.Some? then [p.chosen.value] else [];
        }
      case Destroyed(v) =>
        if v == w {
          FramesOfAll(QueueOf(s, w), Drained);
        }
      case _ =>
    }
  }

  /** Over any run, the frames of a window leave in the order they came, each exactly once, and the ones
      that have not left are the queue. */
  lemma {:induction false} RunConserves(s: State, es: seq<Event>, w: Window)
    ensures QueueOf(s, w) + AllArriving(es, w) == Frames(AllLeaving(s, es, w)) + QueueOf(Run(s, es), w)
    decreases |es|
  {
    hide QueueOf, Arriving, Leaving, Step, Frames;
    if es == [] {
      FramesOfAll([], Drained);
      assert All([], Drained) == [];
      assert QueueOf(s, w) + [] == [] + QueueOf(s, w);
    } else {
      var t := Step(s, es[0]);
      StepConserves(s, es[0], w);
      RunConserves(t, es[1..], w);
      FramesConcat(Leaving(s, es[0], w), AllLeaving(t, es[1..], w));
      SeqAssoc(QueueOf(s, w), Arriving(es[0], w), AllArriving(es[1..], w));
      SeqAssoc(Frames(Leaving(s, es[0], w)), QueueOf(t, w), AllArriving(es[1..], w));
      SeqAssoc(Frames(Leaving(s, es[0], w)), Frames(AllLeaving(t, es[1..], w)), QueueOf(Run(t, es[1..]), w));
    }
  }

  /** Nothing joins the queue of `w`, and the window is not destroyed. */
  ghost predicate Quiet(es: seq<Event>, w: Window) {
    forall e :: e in es ==> !(e.Queue? && e.frame.window == w) && !(e.Destroyed? && e.gone == w)
  }

  /** Some vblank of the window comes when the frame is due. */
  ghost predicate ShowsIn(es: seq<Event>, w: Window, f: Frame) {
    exists e :: e in es && e.Vblank? && e.picked == w && DueAt(f, e.msc)
  }

  lemma StepKeepsQueue(s: State, e: Event, w: Window)
    requires Quiet([e], w) && !(e.Vblank? && e.picked == w)
    ensures QueueOf(Step(s, e), w) == QueueOf(s, w) && Leaving(s, e, w) == []
  {
    hide Pick;
    assert e in [e];
  }

  lemma EmptyQueueStays(s: State, es: seq<Event>, w: Window)
    requires Quiet(es, w) && QueueOf(s, w) == []
    ensures AllLeaving(s, es, w) == []
    decreases |es|
  {
    if es == [] {
    } else {
      assert es[0] in es;
      EmptyQueueStep(s, es[0], w);
      EmptyQueueStays(Step(s, es[0]), es[1..], w);
    }
  }

  lemma EmptyQueueStep(s: State, e: Event, w: Window)
    requires Quiet([e], w) && QueueOf(s, w) == []
    ensures QueueOf(Step(s, e), w) == [] && Leaving(s, e, w) == []
  {
    assert e in [e];
    if e.Vblank? && e.picked == w {
      assert Pick([], e.msc) == Picked(None, [], []);
    } else {
      StepKeepsQueue(s, e, w);
    }
  }

  lemma LoneFrameStep(s: State, msc: Card64, w: Window, f: Frame)
    requires QueueOf(s, w) == [f]
    ensures Leaving(s, Vblank(w, msc), w) == if DueAt(f, msc) then [Departure(f, Shown)] else []
    ensures QueueOf(Step(s, Vblank(w, msc)), w) == if DueAt(f, msc) then [] else [f]
  {
    SatisfiedIff(f, msc);
    hide ScheduleSatisfied, DueAt;
    if ScheduleSatisfied(f, msc) {
      PickUnique([f], msc, 0);
    } else {
      PickNothing([f], msc);
    }
  }

  /** A frame that is alone in its queue is shown by the first vblank of its window that comes when it is due:
      so without a divisor by the first one at or after its target. Until then it waits. */
  lemma {:induction false} LoneFrameIsShown(s: State, es: seq<Event>, w: Window, f: Frame)
    requires QueueOf(s, w) == [f] && Quiet(es, w)
    ensures AllLeaving(s, es, w) == if ShowsIn(es, w, f) then [Departure(f, Shown)] else []
    decreases |es|
  {
    hide DueAt, QueueOf, Step, Leaving;
    if es == [] {
    } else {
      var e, rest := es[0], es[1..];
      assert e in es && forall d :: d in es <==> d == e || d in rest;
      if e.Vblank? && e.picked == w {
        LoneFrameStep(s, e.msc, w, f);
        if DueAt(f, e.msc) {
          EmptyQueueStays(Step(s, e), rest, w);
        } else {
          LoneFrameIsShown(Step(s, e), rest, w, f);
        }
      } else {
        StepKeepsQueue(s, e, w);
        LoneFrameIsShown(Step(s, e), rest, w, f);
      }
    }
  }

  // ----- Flipped buffers -----

  function Retained(s: State, w: Window): seq<Handle> {
    if w in s.flipped then [s.flipped[w]] else []
  }

  /** A handle that a window stops retaining, and whether anybody got it back. */
  datatype Ending = Ending(handle: Handle, returned: bool)

  /** The next flip hands the handle back; a destroyed window forgets it, and the caller gets the frames only. */
  function Endings(s: State, e: Event, w: Window): seq<Ending> {
    match e
    case Flipped(v, h) =>
      var previous := FlipIn(s, v, h).1;
      if v == w && previous.Some? then [Ending(previous.value, true)] else []
    case Destroyed(v) => if v == w && w in s.flipped then [Ending(s.flipped[w], false)] else []
    case _ => []
  }

  function Shows(e: Event, w: Window): seq<Handle> {
    if e.Flipped? && e.shown == w then [e.handle] else []
  }

  function AllEndings(s: State, es: seq<Event>, w: Window): seq<Ending>
    decreases |es|
  {
    if es == [] then [] else Endings(s, es[0], w) + AllEndings(Step(s, es[0]), es[1..], w)
  }

  function AllShown(es: seq<Event>, w: Window): seq<Handle>
    decreases |es|
  {
    if es == [] then [] else Shows(es[0], w) + AllShown(es[1..], w)
  }

  function Handles(ends: seq<Ending>): (hs: seq<Handle>)
    ensures |hs| == |ends| && forall i :: 0 <= i < |ends| ==> hs[i] == ends[i].handle
  {
    seq(|ends|, i requires 0 <= i < |ends| => ends[i].handle)
  }

  /** What `record_flipped` handed back. */
  function Returned(ends: seq<Ending>): seq<Handle> {
    if ends == [] then [] else (if ends[0].returned then [ends[0].handle] else []) + Returned(ends[1..])
  }

  /** What `drain_window` forgot. */
  function Lost(ends: seq<Ending>): seq<Handle> {
    if ends == [] then [] else (if ends[0].returned then [] else [ends[0].handle]) + Lost(ends[1..])
  }

  lemma HandlesConcat(a: seq<Ending>, b: seq<Ending>)
    ensures Handles(a + b) == Handles(a) + Handles(b)
  {
  }

  lemma EndingFirst(e: Ending, rest: seq<Ending>)
    ensures Handles([e] + rest) == [e.handle] + Handles(rest)
    ensures Returned([e] + rest) == if e.returned then [e.handle] + Returned(rest) else Returned(rest)
    ensures Lost([e] + rest) == if e.returned then Lost(rest) else [e.handle] + Lost(rest)
  {
    assert ([e] + rest)[1..] == rest;
  }

  lemma {:induction false} EndingCounts(ends: seq<Ending>)
    ensures |ends| == |Returned(ends)| + |Lost(ends)|
  {
    if ends == [] {
    } else {
      EndingCounts(ends[1..]);
    }
  }

  lemma {:induction false} NoLossMeansAllReturned(ends: seq<Ending>)
    requires Lost(ends) == []
    ensures Returned(ends) == Handles(ends)
  {
    if ends == [] {
      assert Handles(ends) == [];
    } else {
      assert ends == [ends[0]] + ends[1..];
      EndingFirst(ends[0], ends[1..]);
      hide Handles;
      NoLossMeansAllReturned(ends[1..]);
    }
  }

  lemma MultisetCons(h: Handle, hs: seq<Handle>)
    ensures multiset([h] + hs) == multiset{h} + multiset(hs)
  {
  }

  /** Every ending is a return or a loss. */
  lemma {:induction false} EndingsSplit(ends: seq<Ending>)
    ensures multiset(Handles(ends)) == multiset(Returned(ends)) + multiset(Lost(ends))
  {
    if ends == [] {
      assert Handles(ends) == [];
    } else {
      hide Handles, Returned, Lost;
      var e, rest := ends[0], ends[1..];
      assert ends == [e] + rest;
      EndingFirst(e, rest);
      EndingsSplit(rest);
      MultisetCons(e.handle, Handles(rest));
      MultisetCons(e.handle, Returned(rest));
      MultisetCons(e.handle, Lost(rest));
    }
  }

  lemma {:induction false} LostConcat(a: seq<Ending>, b: seq<Ending>)
    ensures Lost(a + b) == Lost(a) + Lost(b)
  {
    if a == [] {
      assert a + b == b;
    } else {
      assert (a + b)[1..] == a[1..] + b;
      LostConcat(a[1..], b);
    }
  }

  /** Every flipped handle is handed back by the next flip, forgotten with its window, or still retained:
      exactly one of these, in the order shown, and only the latest can be retained. */
  lemma {:induction false} FlipsConserve(s: State, es: seq<Event>, w: Window)
    ensures Retained(s, w) + AllShown(es, w) == Handles(AllEndings(s, es, w)) + Retained(Run(s, es), w)
    ensures var ends := AllEndings(s, es, w);
            multiset(Retained(s, w) + AllShown(es, w))
            == multiset(Returned(ends)) + multiset(Lost(ends)) + multiset(Retained(Run(s, es), w))
    decreases |es|
  {
    EndingsSplit(AllEndings(s, es, w));
    if es == [] {
      assert Retained(s, w) + [] == [] + Retained(s, w);
    } else {
      var t := Step(s, es[0]);
      FlipsConserve(t, es[1..], w);
      FlipStepConserves(s, es[0], w);
      hide Retained, Shows, Endings, Step, Handles, Returned, Lost;
      HandlesConcat(Endings(s, es[0], w), AllEndings(t, es[1..], w));
      SeqAssoc(Retained(s, w), Shows(es[0], w), AllShown(es[1..], w));
      SeqAssoc(Handles(Endings(s, es[0], w)), Retained(t, w), AllShown(es[1..], w));
      SeqAssoc(Handles(Endings(s, es[0], w)), Handles(AllEndings(t, es[1..], w)), Retained(Run(t, es[1..]), w));
    }
  }

  lemma FlipStepConserves(s: State, e: Event, w: Window)
    ensures Retained(s, w) + Shows(e, w) == Handles(Endings(s, e, w)) + Retained(Step(s, e), w)
  {
  }

  /** At some point of the run the window is destroyed while it retains a handle. */
  predicate DestroyedWhileRetaining(s: State, es: seq<Event>, w: Window)
    decreases |es|
  {
    es != [] &&
    ((es[0] == Destroyed(w) && w in s.flipped) || DestroyedWhileRetaining(Step(s, es[0]), es[1..], w))
  }

  lemma {:induction false} LostIff(s: State, es: seq<Event>, w: Window)
    ensures Lost(AllEndings(s, es, w)) != [] <==> DestroyedWhileRetaining(s, es, w)
    decreases |es|
  {
    if es == [] {
    } else {
      LostIff(Step(s, es[0]), es[1..], w);
      LostConcat(Endings(s, es[0], w), AllEndings(Step(s, es[0]), es[1..], w));
      assert Lost(Endings(s, es[0], w)) != [] <==> es[0] == Destroyed(w) && w in s.flipped;
    }
  }

  /** Every handle but the one still retained comes back, each once and in order, exactly when the window
      is never destroyed while it retains one. */
  lemma FlipsReturnIff(s: State, es: seq<Event>, w: Window)
    ensures Retained(s, w) + AllShown(es, w) == Returned(AllEndings(s, es, w)) + Retained(Run(s, es), w)
       <==> !DestroyedWhileRetaining(s, es, w)
  {
    var ends := AllEndings(s, es, w);
    FlipsConserve(s, es, w);
    EndingCounts(ends);
    LostIff(s, es, w);
    if Lost(ends) == [] {
      NoLossMeansAllReturned(ends);
    } else {
      assert |Returned(ends)| < |Handles(ends)|;
    }
  }

  /** A buffer shown in a window that is then destroyed: neither call returns its handle, and the
      scheduler no longer has it. */
  lemma DestroyedWindowLosesHandle(w: Window, h: Handle)
    ensures var empty, es := State(map[], map[]), [Flipped(w, h), Destroyed(w)];
            && FlipIn(empty, w, h).1 == None
            && Run(empty, es) == empty
            && AllShown(es, w) == [h]
            && Returned(AllEndings(empty, es, w)) == [] && Lost(AllEndings(empty, es, w)) == [h]
            && DestroyedWhileRetaining(empty, es, w)
  {
    var empty := State(map[], map[]);
    var es := [Flipped(w, h), Destroyed(w)];
    var shown := Step(empty, es[0]);
    assert shown == State(map[], map[w := h]);
    assert Step(shown, es[1]) == empty;
    assert es[1..] == [es[1]] && es[1..][1..] == [];
    assert Endings(empty, es[0], w) == [] && Endings(shown, es[1], w) == [Ending(h, false)];
    assert AllEndings(shown, es[1..], w) == [Ending(h, false)];
    assert AllEndings(empty, es, w) == [Ending(h, false)];
    assert AllShown(es, w) == Shows(es[0], w) + AllShown([es[1]], w) == [h];
    assert [Ending(h, false)][1..] == [];
    assert Run(empty, es) == Run(shown, [es[1]]) == empty;
  }
}
