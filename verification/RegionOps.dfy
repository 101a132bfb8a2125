/** The region operations of the server, proved against pixel sets. */
module RegionOps {
  import opened Ints
  import opened Wrappers
  import opened Sequences
  import opened Regions

  // ----- Two rectangles -----

  function IntersectRect(a: RegionRect, b: RegionRect): Option<RegionRect> {
    var x1 := Max(a.x, b.x);
    var y1 := Max(a.y, b.y);
    var x2 := Min(a.Right(), b.Right());
    var y2 := Min(a.Bottom(), b.Bottom());
    if x2 <= x1 || y2 <= y1 then None
    else Some(RegionRect(ClampI16(x1), ClampI16(y1), ClampU16(x2 - x1), ClampU16(y2 - y1)))
  }

  /** No clamp ever bites in an intersection. */
  lemma IntersectRectPixels(a: RegionRect, b: RegionRect, px: int, py: int)
    ensures a.Has(px, py) && b.Has(px, py)
       <==> IntersectRect(a, b).Some? && IntersectRect(a, b).value.Has(px, py)
    ensures IntersectRect(a, b).Some? ==>
              var i := IntersectRect(a, b).value;
              && i.x == Max(a.x, b.x) && i.y == Max(a.y, b.y)
              && i.Right() == Min(a.Right(), b.Right()) && i.Bottom() == Min(a.Bottom(), b.Bottom())
              && !i.IsEmpty()
  {
  }

  function AboveStrip(a: RegionRect, i: RegionRect): seq<RegionRect> {
    if a.y < i.y then [RegionRect(a.x, a.y, a.width, ClampU16(i.y - a.y))] else []
  }

  function BelowStrip(a: RegionRect, i: RegionRect): seq<RegionRect> {
    if i.Bottom() < a.Bottom()
    then [RegionRect(a.x, ClampI16(i.Bottom()), a.width, ClampU16(a.Bottom() - i.Bottom()))] else []
  }

  function LeftStrip(a: RegionRect, i: RegionRect): seq<RegionRect> {
    if a.x < i.x then [RegionRect(a.x, i.y, ClampU16(i.x - a.x), i.height)] else []
  }

  function RightStrip(a: RegionRect, i: RegionRect): seq<RegionRect> {
    if i.Right() < a.Right()
    then [RegionRect(ClampI16(i.Right()), i.y, ClampU16(a.Right() - i.Right()), i.height)] else []
  }

  /** Up to four strips of `a` around its overlap with `b`. */
  function SubtractRect(a: RegionRect, b: RegionRect): seq<RegionRect> {
    match IntersectRect(a, b)
    case None => [a]
    case Some(i) => AboveStrip(a, i) + BelowStrip(a, i) + LeftStrip(a, i) + RightStrip(a, i)
  }

  datatype Side = Rows | Columns

  /** The strip below, or the strip to the right, would have to start beyond the last i16 coordinate. */
  predicate StripOverflows(side: Side, a: RegionRect, b: RegionRect) {
    match IntersectRect(a, b)
    case None => false
    case Some(i) => if side.Rows? then I16_MAX < i.Bottom() < a.Bottom() else I16_MAX < i.Right() < a.Right()
  }

  predicate SplitOverflows(a: RegionRect, b: RegionRect) {
    StripOverflows(Rows, a, b) || StripOverflows(Columns, a, b)
  }

  lemma CoversOne(r: RegionRect, px: int, py: int)
    ensures Covers([r], px, py) <==> r.Has(px, py)
  {
    assert r in [r];
  }

  lemma AboveStripPixels(a: RegionRect, i: RegionRect, px: int, py: int)
    requires a.y <= i.y && i.Bottom() <= a.Bottom()
    ensures Covers(AboveStrip(a, i), px, py) <==> a.Has(px, py) && py < i.y
  {
    if a.y < i.y { CoversOne(AboveStrip(a, i)[0], px, py); }
  }

  lemma BelowStripPixels(a: RegionRect, i: RegionRect, px: int, py: int)
    requires a.y <= i.y < i.Bottom() <= a.Bottom()
    requires Visible(px, py) || !(I16_MAX < i.Bottom() < a.Bottom())
    ensures Covers(BelowStrip(a, i), px, py) <==> a.Has(px, py) && i.Bottom() <= py
  {
    if i.Bottom() < a.Bottom() { CoversOne(BelowStrip(a, i)[0], px, py); }
  }

  lemma LeftStripPixels(a: RegionRect, i: RegionRect, px: int, py: int)
    requires a.x <= i.x && i.Right() <= a.Right() && a.y <= i.y && i.Bottom() <= a.Bottom()
    ensures Covers(LeftStrip(a, i), px, py) <==> a.Has(px, py) && i.y <= py < i.Bottom() && px < i.x
  {
    if a.x < i.x { CoversOne(LeftStrip(a, i)[0], px, py); }
  }

  lemma RightStripPixels(a: RegionRect, i: RegionRect, px: int, py: int)
    requires a.x <= i.x < i.Right() <= a.Right() && a.y <= i.y && i.Bottom() <= a.Bottom()
    requires Visible(px, py) || !(I16_MAX < i.Right() < a.Right())
    ensures Covers(RightStrip(a, i), px, py) <==> a.Has(px, py) && i.y <= py < i.Bottom() && i.Right() <= px
  {
    if i.Right() < a.Right() { CoversOne(RightStrip(a, i)[0], px, py); }
  }

  lemma SubtractRectPixels(a: RegionRect, b: RegionRect, px: int, py: int)
    requires Visible(px, py) || !SplitOverflows(a, b)
    ensures Covers(SubtractRect(a, b), px, py) <==> a.Has(px, py) && !b.Has(px, py)
  {
    IntersectRectPixels(a, b, px, py);
    match IntersectRect(a, b)
    case None => CoversOne(a, px, py);
    case Some(i) =>
      AboveStripPixels(a, i, px, py);
      BelowStripPixels(a, i, px, py);
      LeftStripPixels(a, i, px, py);
      RightStripPixels(a, i, px, py);
      FourCover(AboveStrip(a, i), BelowStrip(a, i), LeftStrip(a, i), RightStrip(a, i), px, py);
  }

  lemma FourCover(a: seq<RegionRect>, b: seq<RegionRect>, c: seq<RegionRect>, d: seq<RegionRect>, px: int, py: int)
    ensures Covers(a + b + c + d, px, py)
       <==> Covers(a, px, py) || Covers(b, px, py) || Covers(c, px, py) || Covers(d, px, py)
  {
    CoversConcat(a, b, px, py);
    CoversConcat(a + b, c, px, py);
    CoversConcat(a + b + c, d, px, py);
  }

  /** Subtracting one rectangle is exact precisely when no strip starts beyond the i16 range. */
  lemma SubtractRectExactIff(a: RegionRect, b: RegionRect)
    ensures (forall px, py :: Covers(SubtractRect(a, b), px, py) <==> a.Has(px, py) && !b.Has(px, py))
       <==> !SplitOverflows(a, b)
  {
    if !SplitOverflows(a, b) {
      forall px, py { SubtractRectPixels(a, b, px, py); }
    } else {
      var i := IntersectRect(a, b).value;
      var px, py := if I16_MAX < i.Bottom() < a.Bottom() then a.x as int else a.Right() - 1,
                    if I16_MAX < i.Bottom() < a.Bottom() then a.Bottom() - 1 else i.y as int;
      IntersectRectPixels(a, b, px, py);
      assert a.Has(px, py) && !b.Has(px, py);
      AboveStripPixels(a, i, px, py);
      LeftStripPixels(a, i, px, py);
      if I16_MAX < i.Bottom() < a.Bottom() {
        CoversOne(BelowStrip(a, i)[0], px, py);
        if i.Right() < a.Right() { CoversOne(RightStrip(a, i)[0], px, py); }
      } else {
        BelowStripPixels(a, i, px, py);
        CoversOne(RightStrip(a, i)[0], px, py);
      }
      FourCover(AboveStrip(a, i), BelowStrip(a, i), LeftStrip(a, i), RightStrip(a, i), px, py);
    }
  }

  /** A column one pixel wide from row 0 on. */
  function Column(height: Card16): RegionRect {
    RegionRect(0, 0, 1, height)
  }

  /** Beyond the i16 range a split does lose pixels: the rows below `k` are cut away from a column of height
      `h`, and what is left of it is drawn from row 32767 on. */
  lemma ClampsCanBite(h: Card16, k: Card16)
    requires I16_MAX < k < h
    ensures StripOverflows(Rows, Column(h), Column(k))
    ensures SubtractRect(Column(h), Column(k)) == [RegionRect(0, I16_MAX, 1, h - k)]
    ensures !Covers(SubtractRect(Column(h), Column(k)), 0, h - 1) && Column(h).Has(0, h - 1) && !Column(k).Has(0, h - 1)
    ensures Covers(SubtractRect(Column(h), Column(k)), 0, I16_MAX) && Column(k).Has(0, I16_MAX)
  {
    var tall, cut := Column(h), Column(k);
    var rest := RegionRect(0, I16_MAX, 1, h - k);
    assert IntersectRect(tall, cut) == Some(cut);
    assert AboveStrip(tall, cut) == LeftStrip(tall, cut) == RightStrip(tall, cut) == [];
    assert BelowStrip(tall, cut) == [rest];
    hide IntersectRect, Covers;
    CoversOne(rest, 0, I16_MAX);
    CoversOne(rest, 0, h - 1);
  }

  lemma SubtractRectInRange(a: RegionRect, b: RegionRect)
    requires InRange([a])
    ensures InRange(SubtractRect(a, b))
  {
    assert a in [a];
    if a.IsEmpty() {
      assert IntersectRect(a, b).None?;
    }
  }

  lemma InRangeConcat(a: seq<RegionRect>, b: seq<RegionRect>)
    requires InRange(a) && InRange(b)
    ensures InRange(a + b)
  {
  }

  // ----- Rectangle lists -----

  lemma InRangeFits(rects: seq<RegionRect>)
    requires InRange(rects)
    ensures RowsFit(rects) && ColumnsFit(rects)
  {
    forall px, py ensures !WideRun(rects, px, py) {
      NoWideRun(rects, px, py);
    }
  }

  lemma NoWideRun(rects: seq<RegionRect>, px: int, py: int)
    requires InRange(rects)
    ensures !Covers(rects, px, py) || !Covers(rects, px + U16_MAX, py)
  {
  }

  /** What a caller may rely on after any operation that ends in `normalize_region_rects(raw)`. */
  lemma NormalizedSound(raw: seq<RegionRect>)
    ensures forall px, py :: Visible(px, py) ==> (Covers(Normalized(raw), px, py) <==> Covers(raw, px, py))
    ensures InRange(raw) ==> SamePixels(Normalized(raw), raw) && NormalForm(Normalized(raw))
  {
    forall px, py | Visible(px, py) { NormalizedPixel(raw, px, py); }
    if InRange(raw) {
      InRangeFits(raw);
      NormalizedKeepsPixelsIff(raw);
      NormalizedIsNormal(raw);
    }
  }

  method CollectEdges(kept: seq<RegionRect>) returns (yEdges: seq<int>)
    ensures yEdges == Edges(kept)
  {
    yEdges := [];
    for i := 0 to |kept|
      invariant yEdges + EdgeList(kept[i..]) == EdgeList(kept)
    {
      assert kept[i..][1..] == kept[i + 1..];
      yEdges := yEdges + [kept[i].y as int, kept[i].Bottom()];
    }
    assert kept[|kept|..] == [] && yEdges == EdgeList(kept);
    yEdges := SortDedup(yEdges);
  }

  method CollectSpans(rects: seq<RegionRect>, y0: int, y1: int) returns (spans: seq<Span>)
    ensures spans == BandSpans(rects, y0, y1)
  {
    hide Across;
    spans := [];
    for i := 0 to |rects|
      invariant spans + BandSpans(rects[i..], y0, y1) == BandSpans(rects, y0, y1)
    {
      assert rects[i..][1..] == rects[i + 1..];
      if Across(rects[i], y0, y1) {
        spans := spans + [Span(rects[i].x, rects[i].Right())];
      }
    }
  }

  /** Fuse the sorted columns of one band and draw them. */
  method FuseSpans(spans: seq<Span>, y0: int, y1: int) returns (out: seq<RegionRect>)
    requires spans != []
    ensures out == SpanRects(MergeSpans(spans[0], spans[1..]), y0, y1)
  {
    out := [];
    var current := spans[0];
    for i := 1 to |spans|
      invariant out + SpanRects(MergeSpans(current, spans[i..]), y0, y1)
             == SpanRects(MergeSpans(spans[0], spans[1..]), y0, y1)
    {
      FuseStep(current, spans, i, y0, y1);
      if spans[i].lo <= current.hi {
        current := Span(current.lo, Max(current.hi, spans[i].hi));
      } else {
        SeqAssoc(out, [SpanRect(current, y0, y1)], SpanRects(MergeSpans(spans[i], spans[i + 1..]), y0, y1));
        out := out + [SpanRect(current, y0, y1)];
        current := spans[i];
      }
    }
    assert MergeSpans(current, spans[|spans|..]) == [current];
    out := out + [SpanRect(current, y0, y1)];
  }

  lemma FuseStep(current: Span, spans: seq<Span>, i: nat, y0: int, y1: int)
    requires i < |spans|
    ensures SpanRects(MergeSpans(current, spans[i..]), y0, y1)
         == if spans[i].lo <= current.hi
            then SpanRects(MergeSpans(Span(current.lo, Max(current.hi, spans[i].hi)), spans[i + 1..]), y0, y1)
            else [SpanRect(current, y0, y1)] + SpanRects(MergeSpans(spans[i], spans[i + 1..]), y0, y1)
  {
    assert spans[i..][1..] == spans[i + 1..];
    var rest := MergeSpans(spans[i], spans[i + 1..]);
    assert ([current] + rest)[1..] == rest;
  }

  method SweepBand(kept: seq<RegionRect>, y0: int, y1: int) returns (band: seq<RegionRect>)
    ensures band == BandRects(kept, y0, y1)
  {
    var spans := CollectSpans(kept, y0, y1);
    if spans == [] {
      return [];
    }
    spans := SortSpans(spans);
    band := FuseSpans(spans, y0, y1);
  }

  /** The sweep over pairs of neighbouring edges. */
  method SweepBands(kept: seq<RegionRect>, yEdges: seq<int>) returns (out: seq<RegionRect>)
    ensures out == Bands(kept, yEdges)
  {
    out := [];
    var k := 0;
    while k + 1 < |yEdges|
      invariant k <= |yEdges|
      invariant out + Bands(kept, yEdges[k..]) == Bands(kept, yEdges)
    {
      var band := SweepBand(kept, yEdges[k], yEdges[k + 1]);
      BandsStep(kept, yEdges, k);
      SeqAssoc(out, band, Bands(kept, yEdges[k + 1..]));
      out := out + band;
      k := k + 1;
    }
  }

  method NormalizeRegionRects(rects: seq<RegionRect>) returns (out: seq<RegionRect>)
    ensures out == Normalized(rects)
  {
    var kept := NonEmpty(rects);
    if kept == [] {
      return [];
    }
    var yEdges := CollectEdges(kept);
    out := SweepBands(kept, yEdges);
  }

  /** The pairwise intersections, row by row of the double loop. */
  ghost function IntersectPairs(a: seq<RegionRect>, b: seq<RegionRect>): seq<RegionRect> {
    if a == [] then [] else IntersectRow(a[0], b) + IntersectPairs(a[1..], b)
  }

  ghost function IntersectRow(r: RegionRect, b: seq<RegionRect>): seq<RegionRect> {
    if b == [] then []
    else ToSeq(IntersectRect(r, b[0])) + IntersectRow(r, b[1..])
  }

  function ToSeq<T>(o: Option<T>): seq<T> {
    match o case None => [] case Some(v) => [v]
  }

  lemma IntersectRowEmpty(r: RegionRect)
    ensures IntersectRow(r, []) == []
  {
  }

  lemma IntersectRowStep(r: RegionRect, b: seq<RegionRect>, j: nat)
    requires j < |b|
    ensures IntersectRow(r, b[j..]) == ToSeq(IntersectRect(r, b[j])) + IntersectRow(r, b[j + 1..])
  {
    assert b[j..][1..] == b[j + 1..];
  }

  lemma IntersectPairsEmpty(b: seq<RegionRect>)
    ensures IntersectPairs([], b) == []
  {
  }

  lemma IntersectPairsStep(a: seq<RegionRect>, b: seq<RegionRect>, i: nat)
    requires i < |a|
    ensures IntersectPairs(a[i..], b) == IntersectRow(a[i], b) + IntersectPairs(a[i + 1..], b)
  {
    assert a[i..][1..] == a[i + 1..];
  }

  lemma {:induction false} IntersectRowPixels(r: RegionRect, b: seq<RegionRect>, px: int, py: int)
    ensures Covers(IntersectRow(r, b), px, py) <==> r.Has(px, py) && Covers(b, px, py)
  {
    if b == [] {
    } else {
      var head := ToSeq(IntersectRect(r, b[0]));
      IntersectRowPixels(r, b[1..], px, py);
      IntersectRectPixels(r, b[0], px, py);
      if head != [] { CoversOne(head[0], px, py); }
      CoversConcat(head, IntersectRow(r, b[1..]), px, py);
      assert b == [b[0]] + b[1..];
      CoversConcat([b[0]], b[1..], px, py);
      CoversOne(b[0], px, py);
    }
  }

  lemma {:induction false} IntersectPairsPixels(a: seq<RegionRect>, b: seq<RegionRect>, px: int, py: int)
    ensures Covers(IntersectPairs(a, b), px, py) <==> Covers(a, px, py) && Covers(b, px, py)
  {
    if a == [] {
    } else {
      IntersectRowPixels(a[0], b, px, py);
      IntersectPairsPixels(a[1..], b, px, py);
      CoversConcat(IntersectRow(a[0], b), IntersectPairs(a[1..], b), px, py);
      assert a == [a[0]] + a[1..];
      CoversConcat([a[0]], a[1..], px, py);
      CoversOne(a[0], px, py);
    }
  }

  lemma {:induction false} IntersectRowInRange(r: RegionRect, b: seq<RegionRect>)
    requires InRange([r]) || InRange(b)
    ensures InRange(IntersectRow(r, b))
  {
    if b == [] {
    } else {
      assert r in [r] && b[0] in b;
      IntersectRowInRange(r, b[1..]);
      IntersectRectPixels(r, b[0], 0, 0);
      if IntersectRect(r, b[0]).Some? {
        assert !r.IsEmpty() && !b[0].IsEmpty();
      }
    }
  }

  lemma {:induction false} IntersectPairsInRange(a: seq<RegionRect>, b: seq<RegionRect>)
    requires InRange(a) || InRange(b)
    ensures InRange(IntersectPairs(a, b))
  {
    if a == [] {
    } else {
      assert a[0] in a;
      IntersectRowInRange(a[0], b);
      IntersectPairsInRange(a[1..], b);
      InRangeConcat(IntersectRow(a[0], b), IntersectPairs(a[1..], b));
    }
  }

  ghost predicate IsIntersection(out: seq<RegionRect>, a: seq<RegionRect>, b: seq<RegionRect>) {
    forall px, py :: Covers(out, px, py) <==> Covers(a, px, py) && Covers(b, px, py)
  }

  /** `raw` is any list with the pixels of the intersection. */
  lemma IntersectionSound(raw: seq<RegionRect>, a: seq<RegionRect>, b: seq<RegionRect>)
    requires raw == IntersectPairs(a, b)
    ensures forall px, py :: Visible(px, py) ==>
              (Covers(Normalized(raw), px, py) <==> Covers(a, px, py) && Covers(b, px, py))
    ensures IsIntersection(Normalized(raw), a, b) <==> RowsFit(raw) && ColumnsFit(raw)
    ensures InRange(a) || InRange(b) ==> IsIntersection(Normalized(raw), a, b) && NormalForm(Normalized(raw))
  {
    forall px, py { IntersectPairsPixels(a, b, px, py); }
    NormalizedSound(raw);
    NormalizedKeepsPixelsIff(raw);
    assert IsIntersection(Normalized(raw), a, b) <==> SamePixels(Normalized(raw), raw);
    if InRange(a) || InRange(b) {
      IntersectPairsInRange(a, b);
    }
  }

  /** The inner loop: one rectangle against a whole list. */
  method IntersectOne(r: RegionRect, b: seq<RegionRect>) returns (row: seq<RegionRect>)
    ensures row == IntersectRow(r, b)
  {
    IntersectRowEmpty(r);
    hide IntersectRect, IntersectRow;
    row := [];
    for j := 0 to |b|
      invariant row + IntersectRow(r, b[j..]) == IntersectRow(r, b)
    {
      IntersectRowStep(r, b, j);
      var hit := IntersectRect(r, b[j]);
      SeqAssoc(row, ToSeq(hit), IntersectRow(r, b[j + 1..]));
      if hit.Some? {
        row := row + [hit.value];
      }
    }
    assert b[|b|..] == [];
  }

  method IntersectRegions(a: seq<RegionRect>, b: seq<RegionRect>) returns (out: seq<RegionRect>)
    ensures out == Normalized(IntersectPairs(a, b))
    ensures forall px, py :: Visible(px, py) ==>
              (Covers(out, px, py) <==> Covers(a, px, py) && Covers(b, px, py))
    ensures IsIntersection(out, a, b) <==> RowsFit(IntersectPairs(a, b)) && ColumnsFit(IntersectPairs(a, b))
    ensures InRange(a) || InRange(b) ==> IsIntersection(out, a, b) && NormalForm(out)
  {
    IntersectionSound(IntersectPairs(a, b), a, b);
    IntersectPairsEmpty(b);
    hide Covers, Normalized, RowsFit, ColumnsFit, NormalForm, InRange, IsIntersection, IntersectRow, IntersectPairs, Visible;
    var pairs := [];
    assert a[0..] == a;
    for i := 0 to |a|
      invariant pairs + IntersectPairs(a[i..], b) == IntersectPairs(a, b)
    {
      var row := IntersectOne(a[i], b);
      IntersectPairsStep(a, b, i);
      SeqAssoc(pairs, row, IntersectPairs(a[i + 1..], b));
      pairs := pairs + row;
    }
    assert a[|a|..] == [] && pairs == IntersectPairs(a, b);
    out := NormalizeRegionRects(pairs);
  }
}
