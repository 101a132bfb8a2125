/** Exactly which pixels the column clamp of the normalisation costs, and why it never repairs a wrong
    subtraction. */
module RegionTails {
  import opened Ints
  import opened Regions
  import opened RegionOps
  import opened RegionLists

  /** The pixel comes after at least 65535 covered neighbours to its left. */
  ghost predicate InTail(rects: seq<RegionRect>, px: int, py: int) {
    CoveredRun(rects, px - U16_MAX, py, U16_MAX + 1)
  }

  // ----- One band -----

  lemma DrawnExact(rects: seq<RegionRect>, y0: int, y1: int, p: Span, px: int, py: int)
    requires AllNonEmpty(rects) && y0 < y1 && y0 <= I16_MAX && p in MergedSpans(rects, y0, y1)
    ensures SpanRect(p, y0, y1).Has(px, py) <==> p.Has(px) && px - p.lo < U16_MAX && y0 <= py < y1
  {
    hide MergedSpans;
    MergedSpansCorrect(rects, y0, y1);
    var r :| r in rects && Across(r, y0, y1) && r.x == p.lo;
  }

  lemma GapBefore(m: seq<Span>, p: Span)
    requires SpansNonEmpty(m) && Separated(m) && p in m
    ensures !InSpans(m, p.lo - 1)
  {
    var i :| 0 <= i < |m| && m[i] == p;
    forall j | 0 <= j < |m| ensures !m[j].Has(p.lo - 1) {
      assert m[j] in m;
    }
  }

  lemma LeftOfSpanIsClear(rects: seq<RegionRect>, es: seq<int>, p: Span, py: int)
    requires EdgesFrom(rects, es) && |es| >= 2 && AllNonEmpty(rects) && es[0] <= py < es[1]
    requires p in MergedSpans(rects, es[0], es[1])
    ensures !Covers(rects, p.lo - 1, py)
  {
    hide MergedSpans, SpansNonEmpty, Separated, EdgesFrom, AllNonEmpty, Covers, InSpans, CrossedFrom, Crossed;
    MergedSpansCorrect(rects, es[0], es[1]);
    GapBefore(MergedSpans(rects, es[0], es[1]), p);
    BandPixels(rects, es, p.lo - 1, py);
  }

  /** A maximal span has 65535 pixels to the left of one of its own exactly if the row has. */
  lemma SpanTail(rects: seq<RegionRect>, es: seq<int>, p: Span, px: int, py: int)
    requires EdgesFrom(rects, es) && |es| >= 2 && AllNonEmpty(rects) && es[0] <= py < es[1]
    requires p in MergedSpans(rects, es[0], es[1]) && p.Has(px)
    ensures px - p.lo >= U16_MAX <==> InTail(rects, px, py)
  {
    hide MergedSpans, EdgesFrom;
    if px - p.lo >= U16_MAX {
      forall q | px - U16_MAX <= q < px - U16_MAX + (U16_MAX + 1) ensures Covers(rects, q, py) {
        assert p.Has(q);
        BandPixels(rects, es, q, py);
      }
    } else {
      LeftOfSpanIsClear(rects, es, p, py);
    }
  }

  lemma BandExact(rects: seq<RegionRect>, es: seq<int>, px: int, py: int)
    requires EdgesFrom(rects, es) && |es| >= 2 && AllNonEmpty(rects) && es[0] <= I16_MAX
    ensures Covers(BandRects(rects, es[0], es[1]), px, py)
       <==> es[0] <= py < es[1] && Covers(rects, px, py) && !InTail(rects, px, py)
  {
    var m := MergedSpans(rects, es[0], es[1]);
    var drawn := BandRects(rects, es[0], es[1]);
    hide MergedSpans, InTail, EdgesFrom, SpanRect;
    assert es[0] < es[1] by { EdgesIncrease(rects, es); }
    if Covers(drawn, px, py) {
      var i :| 0 <= i < |drawn| && drawn[i].Has(px, py);
      assert drawn[i] == SpanRect(m[i], es[0], es[1]) && m[i] in m;
      DrawnExact(rects, es[0], es[1], m[i], px, py);
      BandPixels(rects, es, px, py);
      SpanTail(rects, es, m[i], px, py);
    } else if es[0] <= py < es[1] && Covers(rects, px, py) {
      BandPixels(rects, es, px, py);
      var i :| 0 <= i < |m| && m[i].Has(px);
      assert drawn[i] == SpanRect(m[i], es[0], es[1]) && drawn[i] in drawn;
      DrawnExact(rects, es[0], es[1], m[i], px, py);
      SpanTail(rects, es, m[i], px, py);
    }
  }

  lemma EdgesIncrease(rects: seq<RegionRect>, es: seq<int>)
    requires EdgesFrom(rects, es) && |es| >= 2
    ensures es[0] < es[1]
  {
  }

  // ----- All bands -----

  ghost predicate StartInRange(es: seq<int>) {
    forall k :: 0 <= k < |es| - 1 ==> es[k] <= I16_MAX
  }

  lemma {:induction false} BandsExact(rects: seq<RegionRect>, es: seq<int>, px: int, py: int)
    requires EdgesFrom(rects, es) && AllNonEmpty(rects) && StartInRange(es)
    ensures Covers(Bands(rects, es), px, py)
       <==> es[0] <= py < es[|es| - 1] && Covers(rects, px, py) && !InTail(rects, px, py)
    decreases |es|
  {
    hide Covers, BandRects, InTail;
    if |es| < 2 {
      NothingCovered(px, py);
    } else {
      var tail := es[1..];
      EdgesFromTail(rects, es);
      BandExact(rects, es, px, py);
      BandsExact(rects, tail, px, py);
      CoversConcat(BandRects(rects, es[0], es[1]), Bands(rects, tail), px, py);
    }
  }

  /** Whatever the edges below are, bands down to row 32767 are in place. */
  lemma {:induction false} TopBandsCover(rects: seq<RegionRect>, es: seq<int>, px: int, py: int)
    requires EdgesFrom(rects, es) && AllNonEmpty(rects)
    requires es[0] <= py < es[|es| - 1] && py <= I16_MAX && Covers(rects, px, py) && !InTail(rects, px, py)
    ensures Covers(Bands(rects, es), px, py)
    decreases |es|
  {
    hide Covers, BandRects, InTail;
    var tail := es[1..];
    EdgesFromTail(rects, es);
    CoversConcat(BandRects(rects, es[0], es[1]), Bands(rects, tail), px, py);
    if py < es[1] {
      BandExact(rects, es, px, py);
    } else {
      TopBandsCover(rects, tail, px, py);
    }
  }

  /** With at most one bottom edge beyond row 32767, normalising keeps exactly the pixels that have fewer
      than 65535 covered neighbours to their left. */
  lemma NormalizedExact(rects: seq<RegionRect>, px: int, py: int)
    requires RowsFit(rects)
    ensures Covers(Normalized(rects), px, py) <==> Covers(rects, px, py) && !InTail(rects, px, py)
  {
    var kept := NonEmpty(rects);
    var es := Edges(kept);
    NonEmptySamePixels(rects);
    TailOfSame(kept, rects, px, py);
    if es != [] {
      EdgesComplete(kept);
      forall k | 0 <= k < |es| - 1 ensures es[k] <= I16_MAX {
        EdgesAreOrdinary(kept, k);
      }
      BandsExact(kept, es, px, py);
    }
    if Covers(kept, px, py) {
      EdgesBound(kept, px, py);
    }
  }

  /** A row of pixels can be that long: the top row of the second rectangle is gone. */
  lemma WideRowLoses(y: Int16, width: Card16, height: Card16)
    requires 0 < width && 0 < height
    ensures var rects := [RegionRect(-0x8000, y, U16_MAX, height), RegionRect(I16_MAX, y, width, height)];
            && RowsFit(rects) && !ColumnsFit(rects)
            && forall px :: I16_MAX <= px < I16_MAX + width ==> Covers(rects, px, y) && !Covers(Normalized(rects), px, y)
  {
    var rects := [RegionRect(-0x8000, y, U16_MAX, height), RegionRect(I16_MAX, y, width, height)];
    hide Normalized;
    forall px | -0x8000 <= px < I16_MAX + width ensures Covers(rects, px, y) {
      CoversMember(rects, rects[if px < I16_MAX then 0 else 1], px, y);
    }
    assert WideRun(rects, -0x8000, y);
    forall px | I16_MAX <= px < I16_MAX + width ensures !Covers(Normalized(rects), px, y) {
      assert InTail(rects, px, y);
      NormalizedExact(rects, px, y);
    }
  }

  lemma TailOfSame(a: seq<RegionRect>, b: seq<RegionRect>, px: int, py: int)
    requires SamePixels(a, b)
    ensures InTail(a, px, py) == InTail(b, px, py)
  {
    hide Covers;
  }

  lemma TopRowsKept(rects: seq<RegionRect>, px: int, py: int)
    requires Covers(rects, px, py) && py <= I16_MAX && !InTail(rects, px, py)
    ensures Covers(Normalized(rects), px, py)
  {
    var kept := NonEmpty(rects);
    NonEmptySamePixels(rects);
    TailOfSame(kept, rects, px, py);
    EdgesBound(kept, px, py);
    TopBandsCover(kept, Edges(kept), px, py);
  }

  // ----- Misplaced strips at column 32767 -----

  /** How far down a rectangle reaches, where that matters: in row 32767, at which misplaced strips start. */
  function Reach(r: RegionRect, y: int): int {
    if y == I16_MAX then r.Bottom() else 0
  }

  /** What a strip has at column 32767 its rectangle had; and where the cut covers the pixel, too, the strip
      is a misplaced one, which reaches less far. */
  lemma StripAtAnchor(a: RegionRect, c: RegionRect, q: RegionRect, y: int)
    requires y <= I16_MAX && q in SubtractRect(a, c) && q.Has(I16_MAX, y)
    ensures a.Has(I16_MAX, y) && q.Right() <= a.Right() && Reach(q, y) <= Reach(a, y)
    ensures c.Has(I16_MAX, y) ==>
              (Reach(c, y) < Reach(a, y) && Reach(q, y) < Reach(a, y)) || (c.Right() < a.Right() && q.Right() < a.Right())
  {
    CoversMember(SubtractRect(a, c), q, I16_MAX, y);
    SplitInside(a, c, I16_MAX, y);
    IntersectRectPixels(a, c, I16_MAX, y);
  }

  lemma CoversMember(rects: seq<RegionRect>, q: RegionRect, px: int, py: int)
    requires q in rects && q.Has(px, py)
    ensures Covers(rects, px, py)
  {
  }

  /** The pieces at the pixel reach no further than given. */
  ghost predicate Within(ps: seq<RegionRect>, y: int, right: int, reach: int) {
    forall p :: p in ps && p.Has(I16_MAX, y) ==> p.Right() <= right && Reach(p, y) <= reach
  }

  /** And less far one way. */
  ghost predicate Short(ps: seq<RegionRect>, y: int, right: int, reach: int) {
    forall p :: p in ps && p.Has(I16_MAX, y) ==>
      p.Right() <= right && Reach(p, y) <= reach && (p.Right() < right || Reach(p, y) < reach)
  }

  ghost predicate Absent(ps: seq<RegionRect>, y: int) {
    forall p :: p in ps ==> !p.Has(I16_MAX, y)
  }

  lemma {:induction false} FromPiece(ps: seq<RegionRect>, c: RegionRect, q: RegionRect) returns (p: RegionRect)
    requires q in SubtractEach(ps, c)
    ensures p in ps && q in SubtractRect(p, c)
    decreases |ps|
  {
    hide SubtractRect;
    if q in SubtractRect(ps[0], c) {
      p := ps[0];
    } else {
      p := FromPiece(ps[1..], c, q);
    }
  }

  lemma {:induction false} IntoEach(ps: seq<RegionRect>, c: RegionRect, p: RegionRect, q: RegionRect)
    requires p in ps && q in SubtractRect(p, c)
    ensures q in SubtractEach(ps, c)
    decreases |ps|
  {
    hide SubtractRect;
    if p == ps[0] {
    } else {
      IntoEach(ps[1..], c, p, q);
    }
  }

  /** One cut and the pieces at the pixel. */
  lemma EachAtAnchor(ps: seq<RegionRect>, c: RegionRect, y: int, right: int, reach: int)
    requires y <= I16_MAX
    ensures Within(ps, y, right, reach) ==> Within(SubtractEach(ps, c), y, right, reach)
    ensures Short(ps, y, right, reach) ==> Short(SubtractEach(ps, c), y, right, reach)
    ensures Absent(ps, y) ==> Absent(SubtractEach(ps, c), y)
    ensures Within(ps, y, right, reach) && c.Has(I16_MAX, y) ==> Short(SubtractEach(ps, c), y, right, reach)
    ensures Within(ps, y, right, reach) && c.Has(I16_MAX, y) && right <= c.Right() && reach <= Reach(c, y) ==>
              Absent(SubtractEach(ps, c), y)
  {
    hide SubtractEach, SubtractRect, Reach;
    forall q | q in SubtractEach(ps, c) && q.Has(I16_MAX, y)
      ensures !Absent(ps, y)
      ensures Within(ps, y, right, reach) ==> q.Right() <= right && Reach(q, y) <= reach
      ensures Short(ps, y, right, reach) ==>
                q.Right() <= right && Reach(q, y) <= reach && (q.Right() < right || Reach(q, y) < reach)
      ensures Within(ps, y, right, reach) && c.Has(I16_MAX, y) ==>
                (q.Right() < right || Reach(q, y) < reach) && !(right <= c.Right() && reach <= Reach(c, y))
    {
      var p := FromPiece(ps, c, q);
      StripAtAnchor(p, c, q, y);
    }
  }

  /** A cut that reaches as far as the pieces do takes them away at the pixel for good. */
  lemma {:induction false} CutAway(ps: seq<RegionRect>, cuts: seq<RegionRect>, c: RegionRect, y: int, right: int, reach: int)
    requires y <= I16_MAX && Within(ps, y, right, reach)
    requires c in cuts && c.Has(I16_MAX, y) && right <= c.Right() && reach <= Reach(c, y)
    ensures Absent(DifferencePieces(ps, cuts), y)
    decreases |cuts|
  {
    hide SubtractEach, Within, Absent, Short;
    EachAtAnchor(ps, cuts[0], y, right, reach);
    if c == cuts[0] {
      StaysAbsent(SubtractEach(ps, c), cuts[1..], y);
    } else {
      CutAway(SubtractEach(ps, cuts[0]), cuts[1..], c, y, right, reach);
    }
  }

  lemma {:induction false} StaysAbsent(ps: seq<RegionRect>, cuts: seq<RegionRect>, y: int)
    requires y <= I16_MAX && Absent(ps, y)
    ensures Absent(DifferencePieces(ps, cuts), y)
    decreases |cuts|
  {
    hide SubtractEach, Within, Absent, Short;
    if cuts == [] {
    } else {
      EachAtAnchor(ps, cuts[0], y, 0, 0);
      StaysAbsent(SubtractEach(ps, cuts[0]), cuts[1..], y);
    }
  }

  /** Any cut at the pixel leaves only pieces that fall short. */
  lemma {:induction false} CutShort(ps: seq<RegionRect>, cuts: seq<RegionRect>, c: RegionRect, y: int, right: int, reach: int)
    requires y <= I16_MAX && Within(ps, y, right, reach) && c in cuts && c.Has(I16_MAX, y)
    ensures Short(DifferencePieces(ps, cuts), y, right, reach)
    decreases |cuts|
  {
    hide SubtractEach, Within, Absent, Short;
    EachAtAnchor(ps, cuts[0], y, right, reach);
    if c == cuts[0] {
      StaysShort(SubtractEach(ps, c), cuts[1..], y, right, reach);
    } else {
      CutShort(SubtractEach(ps, cuts[0]), cuts[1..], c, y, right, reach);
    }
  }

  lemma {:induction false} StaysShort(ps: seq<RegionRect>, cuts: seq<RegionRect>, y: int, right: int, reach: int)
    requires y <= I16_MAX && Short(ps, y, right, reach)
    ensures Short(DifferencePieces(ps, cuts), y, right, reach)
    decreases |cuts|
  {
    hide SubtractEach, Within, Absent, Short;
    if cuts == [] {
    } else {
      EachAtAnchor(ps, cuts[0], y, right, reach);
      StaysShort(SubtractEach(ps, cuts[0]), cuts[1..], y, right, reach);
    }
  }

  // ----- Where a piece comes from -----

  lemma {:induction false} MorePieces(ps: seq<RegionRect>, qs: seq<RegionRect>, cuts: seq<RegionRect>, r: RegionRect)
    requires (forall p :: p in ps ==> p in qs) && r in DifferencePieces(ps, cuts)
    ensures r in DifferencePieces(qs, cuts)
    decreases |cuts|
  {
    hide SubtractEach, SubtractRect;
    if cuts == [] {
    } else {
      forall s | s in SubtractEach(ps, cuts[0]) ensures s in SubtractEach(qs, cuts[0]) {
        var p := FromPiece(ps, cuts[0], s);
        IntoEach(qs, cuts[0], p, s);
      }
      MorePieces(SubtractEach(ps, cuts[0]), SubtractEach(qs, cuts[0]), cuts[1..], r);
    }
  }

  /** Every piece left is a piece of one of the rectangles. */
  lemma {:induction false} Origin(ps: seq<RegionRect>, cuts: seq<RegionRect>, r: RegionRect) returns (a: RegionRect)
    requires r in DifferencePieces(ps, cuts)
    ensures a in ps && r in DifferencePieces([a], cuts)
    decreases |cuts|
  {
    hide SubtractEach, SubtractRect;
    if cuts == [] {
      a := r;
    } else {
      var s := Origin(SubtractEach(ps, cuts[0]), cuts[1..], r);
      a := FromPiece(ps, cuts[0], s);
      IntoEach([a], cuts[0], a, s);
      MorePieces([s], SubtractEach([a], cuts[0]), cuts[1..], r);
    }
  }

  /** Some piece of `a` is left at the pixel. */
  ghost predicate Lasts(a: RegionRect, cuts: seq<RegionRect>, y: int) {
    Covers(DifferencePieces([a], cuts), I16_MAX, y)
  }

  predicate NoFurther(b: RegionRect, a: RegionRect, y: int) {
    Reach(b, y) < Reach(a, y) || (Reach(b, y) == Reach(a, y) && b.Right() <= a.Right())
  }

  /** Among the rectangles with a piece left at the pixel, one that reaches furthest. */
  lemma {:induction false} Furthest(ps: seq<RegionRect>, cuts: seq<RegionRect>, y: int, some: RegionRect)
    returns (a: RegionRect)
    requires some in ps && Lasts(some, cuts, y)
    ensures a in ps && Lasts(a, cuts, y)
    ensures forall b :: b in ps && Lasts(b, cuts, y) ==> NoFurther(b, a, y)
    decreases |ps|
  {
    hide Lasts, Reach;
    var rest := ps[1..];
    assert forall b :: b in ps <==> b == ps[0] || b in rest;
    if other :| other in rest && Lasts(other, cuts, y) {
      a := Furthest(rest, cuts, y, other);
      if Lasts(ps[0], cuts, y) && !NoFurther(ps[0], a, y) {
        a := ps[0];
      }
    } else {
      a := some;
    }
  }

  // ----- What the corner loses -----

  lemma HeldAtAnchor(a: RegionRect, cuts: seq<RegionRect>, y: int)
    requires Lasts(a, cuts, y)
    ensures a.Has(I16_MAX, y) && Within([a], y, a.Right(), Reach(a, y))
  {
    hide DifferencePieces;
    DifferenceInside([a], cuts, I16_MAX, y);
    CoversOne(a, I16_MAX, y);
  }

  /** Every piece left at the pixel falls short of the furthest rectangle, if some cut covers the pixel. */
  lemma AllFallShort(current: seq<RegionRect>, source: seq<RegionRect>, a: RegionRect, y: int, q: RegionRect)
    requires y <= I16_MAX && Covers(source, I16_MAX, y)
    requires forall b :: b in current && Lasts(b, source, y) ==> NoFurther(b, a, y)
    requires q in DifferencePieces(current, source) && q.Has(I16_MAX, y)
    ensures Reach(q, y) <= Reach(a, y)
    ensures q.Right() < a.Right() || Reach(q, y) < Reach(a, y)
  {
    hide DifferencePieces, Reach;
    var b := Origin(current, source, q);
    CoversMember(DifferencePieces([b], source), q, I16_MAX, y);
    HeldAtAnchor(b, source, y);
    var c :| c in source && c.Has(I16_MAX, y);
    CutShort([b], source, c, y, b.Right(), Reach(b, y));
    assert NoFurther(b, a, y);
  }

  /** The last pixel of `a` is not in the source, as the cut would have taken `a` away altogether. */
  lemma CutsFallShort(a: RegionRect, source: seq<RegionRect>, c: RegionRect, y: int)
    requires y <= I16_MAX && Lasts(a, source, y) && c in source && c.Has(I16_MAX, y)
    ensures c.Right() < a.Right() || Reach(c, y) < Reach(a, y)
  {
    hide DifferencePieces, Reach;
    HeldAtAnchor(a, source, y);
    if a.Right() <= c.Right() && Reach(a, y) <= Reach(c, y) {
      CutAway([a], source, c, y, a.Right(), Reach(a, y));
    }
  }

  /** The row in which a pixel at column 32767 is looked for. */
  function LastRow(a: RegionRect, y: int): int {
    if y == I16_MAX then a.Bottom() - 1 else y
  }

  lemma AtLastPixel(a: RegionRect, r: RegionRect, y: int)
    requires y <= I16_MAX && a.Has(I16_MAX, y) && r.Has(a.Right() - 1, LastRow(a, y))
    ensures r.Has(I16_MAX, y) && a.Right() <= r.Right() && Reach(a, y) <= Reach(r, y)
  {
  }

  /** If the pieces and the source share a pixel in column 32767, a pixel of the difference is in no piece. */
  lemma CornerLoses(current: seq<RegionRect>, source: seq<RegionRect>, y: int) returns (px: int, py: int)
    requires y <= I16_MAX && Covers(DifferencePieces(current, source), I16_MAX, y) && Covers(source, I16_MAX, y)
    ensures Covers(current, px, py) && !Covers(source, px, py) && !Covers(DifferencePieces(current, source), px, py)
    ensures y == I16_MAX ==>
              forall q :: q in DifferencePieces(current, source) && q.Has(I16_MAX, y) ==> q.Bottom() <= py + 1
  {
    hide DifferencePieces, NoFurther;
    var raw := DifferencePieces(current, source);
    var r :| r in raw && r.Has(I16_MAX, y);
    var some := Origin(current, source, r);
    CoversMember(DifferencePieces([some], source), r, I16_MAX, y);
    var a := Furthest(current, source, y, some);
    HeldAtAnchor(a, source, y);
    px, py := a.Right() - 1, LastRow(a, y);
    CoversMember(current, a, px, py);
    forall c | c in source ensures !c.Has(px, py) {
      if c.Has(px, py) {
        AtLastPixel(a, c, y);
        CutsFallShort(a, source, c, y);
      }
    }
    forall q | q in raw ensures !q.Has(px, py) {
      if q.Has(px, py) {
        AtLastPixel(a, q, y);
        AllFallShort(current, source, a, y, q);
      }
    }
    if y == I16_MAX {
      forall q | q in raw && q.Has(I16_MAX, y) ensures q.Bottom() <= py + 1 {
        AllFallShort(current, source, a, y, q);
      }
    }
  }

  // ----- When a subtraction is right -----

  lemma NotInTail(rects: seq<RegionRect>, px: int, py: int)
    requires px < I16_MAX
    ensures !InTail(rects, px, py)
  {
    assert !Covers(rects, px - U16_MAX, py);
  }

  lemma DifferenceNeedsRows(current: seq<RegionRect>, source: seq<RegionRect>)
    requires IsDifference(Normalized(DifferencePieces(current, source)), current, source)
    ensures RowsFit(DifferencePieces(current, source))
  {
    var raw := DifferencePieces(current, source);
    hide DifferencePieces, Normalized, RowsFit, InTail;
    if !RowsFit(raw) {
      var m := RowsLost(raw);
      var low := m.Bottom() - 1;
      CoversMember(raw, m, m.x, low);
      DifferenceInside(current, source, m.x, low);
      var c :| c in source && c.Has(m.x, low);
      if m.x == I16_MAX {
        CoversMember(raw, m, I16_MAX, I16_MAX);
        CoversMember(source, c, I16_MAX, I16_MAX);
        var px, py := CornerLoses(current, source, I16_MAX);
      } else {
        var y := Max(m.y, c.y);
        NotInTail(raw, m.x, m.y);
        NotInTail(raw, m.x, y);
        CoversMember(raw, m, m.x, m.y);
        CoversMember(raw, m, m.x, y);
        CoversMember(source, c, m.x, y);
        TopRowsKept(raw, m.x, m.y);
        TopRowsKept(raw, m.x, y);
      }
    }
  }

  lemma DifferenceNeedsColumns(current: seq<RegionRect>, source: seq<RegionRect>)
    requires IsDifference(Normalized(DifferencePieces(current, source)), current, source)
    requires RowsFit(DifferencePieces(current, source))
    ensures ColumnsFit(DifferencePieces(current, source))
  {
    var raw := DifferencePieces(current, source);
    hide DifferencePieces, Normalized, RowsFit;
    forall x, y ensures !WideRun(raw, x, y) {
      if WideRun(raw, x, y) {
        var px, py := WideRunLoses(current, source, x, y);
        NormalizedExact(raw, px, py);
      }
    }
  }

  lemma WideRunLoses(current: seq<RegionRect>, source: seq<RegionRect>, x: int, y: int) returns (px: int, py: int)
    requires IsDifference(Normalized(DifferencePieces(current, source)), current, source)
    requires RowsFit(DifferencePieces(current, source)) && WideRun(DifferencePieces(current, source), x, y)
    ensures Covers(current, px, py) && !Covers(source, px, py) && !Covers(DifferencePieces(current, source), px, py)
  {
    var raw := DifferencePieces(current, source);
    hide DifferencePieces, Normalized, RowsFit;
    var last := x + U16_MAX;
    assert Covers(raw, x, y) && Covers(raw, last, y);
    assert InTail(raw, last, y);
    NormalizedExact(raw, last, y);
    DifferenceInside(current, source, last, y);
    var c :| c in source && c.Has(last, y);
    assert x <= I16_MAX <= last;
    assert Covers(raw, I16_MAX, y);
    var r :| r in raw && r.Has(I16_MAX, y);
    CoversMember(raw, r, I16_MAX, Min(y, I16_MAX));
    CoversMember(source, c, I16_MAX, Min(y, I16_MAX));
    px, py := CornerLoses(current, source, Min(y, I16_MAX));
  }

  /** Subtraction is right about every pixel left of and above 32767. On all pixels, whatever the operands, it
      is right exactly when the pieces survive normalisation and already are the difference; and they are, if
      no split overflows. */
  lemma DifferenceExactIff(current: seq<RegionRect>, source: seq<RegionRect>)
    ensures var raw := DifferencePieces(current, source); var out := Normalized(raw);
            && (forall px, py :: Visible(px, py) ==>
                  (Covers(out, px, py) <==> Covers(current, px, py) && !Covers(source, px, py)))
            && (IsDifference(out, current, source)
                <==> RowsFit(raw) && ColumnsFit(raw) && IsDifference(raw, current, source))
            && (CutsFit(current, source) ==>
                  (IsDifference(out, current, source) <==> RowsFit(raw) && ColumnsFit(raw)))
            && (InRange(current) ==> IsDifference(out, current, source) && NormalForm(out))
  {
    hide DifferencePieces, CutOverflows, Covers, Normalized, RowsFit, ColumnsFit, NormalForm, InRange;
    var raw := DifferencePieces(current, source);
    NormalizedSound(raw);
    NormalizedKeepsPixelsIff(raw);
    forall px, py | Visible(px, py) { DifferencePixels(current, source, px, py); }
    if IsDifference(Normalized(raw), current, source) {
      DifferenceNeedsRows(current, source);
      DifferenceNeedsColumns(current, source);
    }
    if CutsFit(current, source) {
      forall px, py { DifferencePixels(current, source, px, py); }
    }
    if InRange(current) {
      InRangeClear(current, source);
      ClearCuts(current, source);
      forall px, py { DifferencePixels(current, source, px, py); }
      DifferenceInRange(current, source);
    }
  }
}
