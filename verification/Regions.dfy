/** Rectangle lists and the pixel sets they stand for, and the YX-banded normal form that every
    region operation ends with. */
module Regions {
  import opened Ints
  import opened Sequences

  datatype RegionRect = RegionRect(x: Int16, y: Int16, width: Card16, height: Card16) {
    function Right(): int { x + width }
    function Bottom(): int { y + height }
    predicate IsEmpty() { width == 0 || height == 0 }
    predicate Has(px: int, py: int) {
      x <= px < Right() && y <= py < Bottom()
    }
  }

  /** The pixel set of a rectangle list. */
  predicate Covers(rects: seq<RegionRect>, px: int, py: int) {
    exists r :: r in rects && r.Has(px, py)
  }

  ghost predicate SamePixels(a: seq<RegionRect>, b: seq<RegionRect>) {
    forall px, py :: Covers(a, px, py) <==> Covers(b, px, py)
  }

  /** A pixel that no clamp can disturb. The hit test only ever asks about such pixels. */
  predicate Visible(px: int, py: int) {
    px < I16_MAX && py < I16_MAX
  }

  /** Every non-empty rectangle ends where an i16 coordinate can still follow it. */
  ghost predicate InRange(rects: seq<RegionRect>) {
    forall r :: r in rects && !r.IsEmpty() ==> r.Right() <= I16_MAX && r.Bottom() <= I16_MAX
  }

  // ----- The normal form -----

  /** `a` comes strictly before `b`: in an earlier band, or in the same band with a gap between. */
  predicate Before(a: RegionRect, b: RegionRect) {
    a.Bottom() <= b.y || (a.y == b.y && a.height == b.height && a.Right() < b.x)
  }

  /** Non-empty rectangles, sorted by band and then by x; a band shares y and height; rectangles of
      one band do not even touch. */
  ghost predicate NormalForm(s: seq<RegionRect>) {
    && (forall r :: r in s ==> !r.IsEmpty())
    && (forall i, j :: 0 <= i < j < |s| ==> Before(s[i], s[j]))
  }

  /** Distinct rectangles of a normal form share no pixel. */
  lemma NormalFormDisjoint(s: seq<RegionRect>, i: nat, j: nat, px: int, py: int)
    requires NormalForm(s) && i < |s| && j < |s| && i != j
    ensures !(s[i].Has(px, py) && s[j].Has(px, py))
  {
    assert Before(s[Min(i, j)], s[Max(i, j)]);
  }

  // ----- Step by step specification of normalize_region_rects -----

  /** `retain(|rect| !rect.is_empty())` */
  function NonEmpty(rects: seq<RegionRect>): (r: seq<RegionRect>)
    ensures forall q :: q in r <==> q in rects && !q.IsEmpty()
    ensures |r| <= |rects|
  {
    if rects == [] then []
    else (if rects[0].IsEmpty() then [] else [rects[0]]) + NonEmpty(rects[1..])
  }

  ghost predicate Increasing(s: seq<int>) {
    forall i, j :: 0 <= i < j < |s| ==> s[i] < s[j]
  }

  lemma IncreasingTail(s: seq<int>)
    requires Increasing(s) && s != []
    ensures Increasing(s[1..]) && forall v :: v in s[1..] ==> s[0] < v
  {
    var t := s[1..];
    forall j | 0 <= j < |t| ensures s[0] < t[j] {
      assert t[j] == s[j + 1];
    }
  }

  lemma PrependIncreasing(x: int, s: seq<int>)
    requires Increasing(s) && forall v :: v in s ==> x < v
    ensures Increasing([x] + s)
  {
    forall j | 0 <= j < |s| ensures x < s[j] {
      assert s[j] in s;
    }
  }

  function InsertEdge(e: int, s: seq<int>): (r: seq<int>)
    requires Increasing(s)
    ensures Increasing(r)
    ensures forall v :: v in r <==> v == e || v in s
  {
    if s == [] then [e]
    else if e < s[0] then [e] + s
    else if e == s[0] then s
    else
      var rest := InsertEdge(e, s[1..]);
      IncreasingTail(s);
      PrependIncreasing(s[0], rest);
      [s[0]] + rest
  }

  /** `sort_unstable` followed by `dedup`. */
  function SortDedup(s: seq<int>): (r: seq<int>)
    ensures Increasing(r)
    ensures forall v :: v in r <==> v in s
  {
    if s == [] then [] else InsertEdge(s[0], SortDedup(s[1..]))
  }

  /** Top and bottom of every rectangle. */
  function EdgeList(rects: seq<RegionRect>): seq<int> {
    if rects == [] then []
    else [rects[0].y as int, rects[0].Bottom()] + EdgeList(rects[1..])
  }

  lemma {:induction false} EdgeListHas(rects: seq<RegionRect>, q: RegionRect)
    requires q in rects
    ensures q.y as int in EdgeList(rects) && q.Bottom() in EdgeList(rects)
  {
    if q == rects[0] {
    } else {
      EdgeListHas(rects[1..], q);
    }
  }

  lemma {:induction false} EdgeListOnly(rects: seq<RegionRect>, v: int) returns (q: RegionRect)
    requires v in EdgeList(rects)
    ensures q in rects && (v == q.y as int || v == q.Bottom())
  {
    if v == rects[0].y as int || v == rects[0].Bottom() {
      q := rects[0];
    } else {
      q := EdgeListOnly(rects[1..], v);
    }
  }

  /** A half-open interval of columns. */
  datatype Span = Span(lo: int, hi: int) {
    predicate Has(px: int) { lo <= px < hi }
  }

  predicate InSpans(s: seq<Span>, px: int) {
    exists p :: p in s && p.Has(px)
  }

  predicate Across(r: RegionRect, y0: int, y1: int) {
    r.y <= y0 && r.Bottom() >= y1
  }

  /** The columns of the rectangles that cross the whole band. */
  function BandSpans(rects: seq<RegionRect>, y0: int, y1: int): seq<Span> {
    if rects == [] then []
    else (if Across(rects[0], y0, y1) then [Span(rects[0].x, rects[0].Right())] else [])
         + BandSpans(rects[1..], y0, y1)
  }

  lemma {:induction false} BandSpansMembers(rects: seq<RegionRect>, y0: int, y1: int, p: Span)
    ensures p in BandSpans(rects, y0, y1)
       <==> exists r :: r in rects && Across(r, y0, y1) && p == Span(r.x, r.Right())
  {
    if rects == [] {
    } else {
      BandSpansMembers(rects[1..], y0, y1, p);
      assert forall q :: q in rects <==> q == rects[0] || q in rects[1..];
    }
  }

  predicate SpanLe(a: Span, b: Span) {
    a.lo < b.lo || (a.lo == b.lo && a.hi <= b.hi)
  }

  ghost predicate SpansSorted(s: seq<Span>) {
    forall i, j :: 0 <= i < j < |s| ==> SpanLe(s[i], s[j])
  }

  function InsertSpan(p: Span, s: seq<Span>): (r: seq<Span>)
    requires SpansSorted(s)
    ensures SpansSorted(r) && |r| == |s| + 1
    ensures forall q :: q in r <==> q == p || q in s
  {
    if s == [] then [p]
    else if SpanLe(p, s[0]) then [p] + s
    else
      var rest := InsertSpan(p, s[1..]);
      assert forall q :: q in rest ==> SpanLe(s[0], q);
      [s[0]] + rest
  }

  /** `sort_unstable_by_key(|span| (span.0, span.1))` */
  function SortSpans(s: seq<Span>): (r: seq<Span>)
    ensures SpansSorted(r) && |r| == |s|
    ensures forall q :: q in r <==> q in s
  {
    if s == [] then [] else InsertSpan(s[0], SortSpans(s[1..]))
  }

  /** Fuse overlapping or touching spans of a sorted list, `current` being the open one. */
  function MergeSpans(current: Span, rest: seq<Span>): (m: seq<Span>)
    ensures m != []
    decreases |rest|
  {
    if rest == [] then [current]
    else if rest[0].lo <= current.hi then
      MergeSpans(Span(current.lo, Max(current.hi, rest[0].hi)), rest[1..])
    else [current] + MergeSpans(rest[0], rest[1..])
  }

  function SpanRect(p: Span, y0: int, y1: int): RegionRect {
    RegionRect(ClampI16(p.lo), ClampI16(y0), ClampU16(p.hi - p.lo), ClampU16(y1 - y0))
  }

  function SpanRects(s: seq<Span>, y0: int, y1: int): (r: seq<RegionRect>)
    ensures |r| == |s|
    ensures forall i :: 0 <= i < |s| ==> r[i] == SpanRect(s[i], y0, y1)
  {
    if s == [] then [] else [SpanRect(s[0], y0, y1)] + SpanRects(s[1..], y0, y1)
  }

  /** The maximal column intervals of one band. */
  function MergedSpans(rects: seq<RegionRect>, y0: int, y1: int): seq<Span> {
    var spans := SortSpans(BandSpans(rects, y0, y1));
    if spans == [] then [] else MergeSpans(spans[0], spans[1..])
  }

  function BandRects(rects: seq<RegionRect>, y0: int, y1: int): seq<RegionRect> {
    SpanRects(MergedSpans(rects, y0, y1), y0, y1)
  }

  function Bands(rects: seq<RegionRect>, edges: seq<int>): seq<RegionRect>
    decreases |edges|
  {
    if |edges| < 2 then []
    else BandRects(rects, edges[0], edges[1]) + Bands(rects, edges[1..])
  }

  function Edges(rects: seq<RegionRect>): (e: seq<int>)
    ensures Increasing(e)
  {
    SortDedup(EdgeList(rects))
  }

  lemma EdgesHave(rects: seq<RegionRect>, q: RegionRect)
    requires q in rects
    ensures Edges(rects) != [] && q.y as int in Edges(rects) && q.Bottom() in Edges(rects)
  {
    EdgeListHas(rects, q);
  }

  lemma EdgesOnly(rects: seq<RegionRect>, v: int) returns (q: RegionRect)
    requires v in Edges(rects)
    ensures q in rects && (v == q.y as int || v == q.Bottom())
  {
    q := EdgeListOnly(rects, v);
  }

  function Normalized(rects: seq<RegionRect>): seq<RegionRect> {
    var kept := NonEmpty(rects);
    Bands(kept, Edges(kept))
  }

  // ----- What the steps mean -----

  ghost predicate SpansNonEmpty(s: seq<Span>) {
    forall p :: p in s ==> p.lo < p.hi
  }

  /** Consecutive spans leave at least one column free. */
  ghost predicate Separated(s: seq<Span>) {
    forall i, j :: 0 <= i < j < |s| ==> s[i].hi < s[j].lo
  }

  lemma InSpansCons(p: Span, s: seq<Span>, px: int)
    ensures InSpans([p] + s, px) <==> p.Has(px) || InSpans(s, px)
  {
    if InSpans(s, px) {
      var q :| q in s && q.Has(px);
      assert q in [p] + s;
    }
    if p.Has(px) {
      assert p in [p] + s;
    }
  }

  /** Merging changes no column. */
  lemma {:induction false} MergeSpansColumns(current: Span, rest: seq<Span>, px: int)
    requires SpansSorted(rest) && SpansNonEmpty(rest) && current.lo < current.hi
    requires forall p :: p in rest ==> current.lo <= p.lo
    ensures InSpans(MergeSpans(current, rest), px) <==> current.Has(px) || InSpans(rest, px)
    decreases |rest|
  {
    if rest == [] {
      InSpansCons(current, [], px);
      assert [current] + [] == [current];
    } else {
      var tail := rest[1..];
      assert rest == [rest[0]] + tail;
      InSpansCons(rest[0], tail, px);
      if rest[0].lo <= current.hi {
        MergeSpansColumns(Span(current.lo, Max(current.hi, rest[0].hi)), tail, px);
      } else {
        MergeSpansColumns(rest[0], tail, px);
        InSpansCons(current, MergeSpans(rest[0], tail), px);
      }
    }
  }

  /** Merging leaves non-empty spans with a gap between any two; no left end is new. */
  lemma {:induction false} MergeSpansSeparated(current: Span, rest: seq<Span>)
    requires SpansSorted(rest) && SpansNonEmpty(rest) && current.lo < current.hi
    requires forall p :: p in rest ==> current.lo <= p.lo
    ensures var m := MergeSpans(current, rest);
            && SpansNonEmpty(m) && Separated(m)
            && (forall p :: p in m ==> current.lo <= p.lo)
    decreases |rest|
  {
    if rest == [] {
    } else {
      var tail := rest[1..];
      assert forall p :: p in tail ==> p in rest && SpanLe(rest[0], p);
      if rest[0].lo <= current.hi {
        MergeSpansSeparated(Span(current.lo, Max(current.hi, rest[0].hi)), tail);
      } else {
        MergeSpansSeparated(rest[0], tail);
        var n := MergeSpans(rest[0], tail);
        assert forall j :: 0 <= j < |n| ==> n[j] in n;
      }
    }
  }

  lemma {:induction false} MergeSpansLeftEnds(current: Span, rest: seq<Span>, p: Span)
    requires p in MergeSpans(current, rest)
    ensures p.lo == current.lo || exists q :: q in rest && q.lo == p.lo
    decreases |rest|
  {
    if rest == [] {
    } else {
      if rest[0].lo <= current.hi {
        MergeSpansLeftEnds(Span(current.lo, Max(current.hi, rest[0].hi)), rest[1..], p);
      } else if p != current {
        MergeSpansLeftEnds(rest[0], rest[1..], p);
      }
    }
  }

  ghost predicate AllNonEmpty(rects: seq<RegionRect>) {
    forall r :: r in rects ==> !r.IsEmpty()
  }

  /** Some rectangle crosses the band in column `px`. */
  ghost predicate Crossed(rects: seq<RegionRect>, y0: int, y1: int, px: int) {
    exists r :: r in rects && Across(r, y0, y1) && r.x <= px < r.Right()
  }

  /** Some rectangle crossing the band has `lo` as its first column. */
  ghost predicate CrossedFrom(rects: seq<RegionRect>, y0: int, y1: int, lo: int) {
    exists r :: r in rects && Across(r, y0, y1) && r.x == lo
  }

  /** What the columns of a band are, whatever the clamps do later. */
  lemma MergedSpansCorrect(rects: seq<RegionRect>, y0: int, y1: int)
    requires AllNonEmpty(rects)
    ensures var m := MergedSpans(rects, y0, y1);
            && SpansNonEmpty(m) && Separated(m)
            && (forall p :: p in m ==> CrossedFrom(rects, y0, y1, p.lo))
    ensures forall px :: InSpans(MergedSpans(rects, y0, y1), px) <==> Crossed(rects, y0, y1, px)
  {
    var raw := BandSpans(rects, y0, y1);
    var spans := SortSpans(raw);
    forall p { BandSpansMembers(rects, y0, y1, p); }
    forall p | p in spans ensures p.lo < p.hi { assert p in raw; }
    forall px ensures InSpans(MergedSpans(rects, y0, y1), px) <==> InSpans(spans, px) {
      if spans != [] {
        assert spans == [spans[0]] + spans[1..];
        assert spans[0] in spans;
        assert forall p :: p in spans[1..] ==> p in spans && SpanLe(spans[0], p);
        MergeSpansColumns(spans[0], spans[1..], px);
        InSpansCons(spans[0], spans[1..], px);
      }
    }
    forall px { SpansAreRects(rects, y0, y1, px); }
    if spans != [] {
      MergeSpansSeparated(spans[0], spans[1..]);
      forall p | p in MergedSpans(rects, y0, y1)
        ensures CrossedFrom(rects, y0, y1, p.lo) {
        MergeSpansLeftEnds(spans[0], spans[1..], p);
        var q :| q in spans && q.lo == p.lo;
        assert q in raw;
      }
    }
  }

  lemma SpansAreRects(rects: seq<RegionRect>, y0: int, y1: int, px: int)
    ensures InSpans(SortSpans(BandSpans(rects, y0, y1)), px) <==> Crossed(rects, y0, y1, px)
  {
    var raw := BandSpans(rects, y0, y1);
    forall p { BandSpansMembers(rects, y0, y1, p); }
    forall r | r in rects && Across(r, y0, y1) && r.x <= px < r.Right()
      ensures InSpans(SortSpans(raw), px) {
      assert Span(r.x, r.Right()) in SortSpans(raw);
    }
  }

  /** A band loses nothing to the clamps. */
  ghost predicate BandFits(rects: seq<RegionRect>, y0: int, y1: int) {
    forall p :: p in MergedSpans(rects, y0, y1) ==> y0 <= I16_MAX && p.hi - p.lo <= U16_MAX
  }

  lemma BandRectsCover(rects: seq<RegionRect>, y0: int, y1: int, px: int, py: int)
    requires AllNonEmpty(rects) && y0 < y1
    requires Visible(px, py) || BandFits(rects, y0, y1)
    ensures Covers(BandRects(rects, y0, y1), px, py)
       <==> y0 <= py < y1 && InSpans(MergedSpans(rects, y0, y1), px)
  {
    var m := MergedSpans(rects, y0, y1);
    forall p | p in m ensures SpanRect(p, y0, y1).Has(px, py) <==> p.Has(px) && y0 <= py < y1 {
      DrawnPixel(rects, y0, y1, p, px, py);
    }
    SpanRectsCover(m, y0, y1, px, py);
  }

  lemma DrawnPixel(rects: seq<RegionRect>, y0: int, y1: int, p: Span, px: int, py: int)
    requires AllNonEmpty(rects) && y0 < y1 && p in MergedSpans(rects, y0, y1)
    requires Visible(px, py) || (y0 <= I16_MAX && p.hi - p.lo <= U16_MAX)
    ensures SpanRect(p, y0, y1).Has(px, py) <==> p.Has(px) && y0 <= py < y1
  {
    hide MergedSpans;
    MergedSpansCorrect(rects, y0, y1);
    var r :| r in rects && Across(r, y0, y1) && r.x == p.lo;
  }

  lemma {:induction false} SpanRectsCover(m: seq<Span>, y0: int, y1: int, px: int, py: int)
    requires forall p :: p in m ==> (SpanRect(p, y0, y1).Has(px, py) <==> p.Has(px) && y0 <= py < y1)
    ensures Covers(SpanRects(m, y0, y1), px, py) <==> y0 <= py < y1 && InSpans(m, px)
  {
    hide SpanRect;
    if m == [] {
    } else {
      SpanRectsCover(m[1..], y0, y1, px, py);
      assert m == [m[0]] + m[1..];
      InSpansCons(m[0], m[1..], px);
      CoversConcat([SpanRect(m[0], y0, y1)], SpanRects(m[1..], y0, y1), px, py);
      assert SpanRect(m[0], y0, y1) in [SpanRect(m[0], y0, y1)];
    }
  }

  /** `es` holds every top and bottom that is not above its first entry. */
  ghost predicate EdgesFrom(rects: seq<RegionRect>, es: seq<int>) {
    && es != [] && Increasing(es)
    && (forall r :: r in rects ==> (r.y in es || r.y < es[0]) && (r.Bottom() in es || r.Bottom() < es[0]))
  }

  lemma CoversConcat(a: seq<RegionRect>, b: seq<RegionRect>, px: int, py: int)
    ensures Covers(a + b, px, py) <==> Covers(a, px, py) || Covers(b, px, py)
  {
    forall r | r in a && r.Has(px, py) ensures Covers(a + b, px, py) { assert r in a + b; }
    forall r | r in b && r.Has(px, py) ensures Covers(a + b, px, py) { assert r in a + b; }
  }

  /** Between two neighbouring edges a rectangle crosses the whole band or misses it. */
  lemma BandPixels(rects: seq<RegionRect>, es: seq<int>, px: int, py: int)
    requires EdgesFrom(rects, es) && |es| >= 2 && AllNonEmpty(rects)
    requires es[0] <= py < es[1]
    ensures InSpans(MergedSpans(rects, es[0], es[1]), px) <==> Covers(rects, px, py)
  {
    MergedSpansCorrect(rects, es[0], es[1]);
    forall r | r in rects && r.Has(px, py) ensures Across(r, es[0], es[1]) {
      assert forall v :: v in es ==> v == es[0] || v >= es[1];
    }
  }

  lemma EdgesFromTail(rects: seq<RegionRect>, es: seq<int>)
    requires EdgesFrom(rects, es) && |es| >= 2
    ensures EdgesFrom(rects, es[1..]) && es[0] < es[1] <= es[|es| - 1]
  {
    var tail := es[1..];
    forall r | r in rects ensures (r.y in tail || r.y < tail[0]) && (r.Bottom() in tail || r.Bottom() < tail[0]) {
      assert forall v :: v in es ==> v == es[0] || v in tail;
    }
  }

  lemma BandsFitTail(rects: seq<RegionRect>, es: seq<int>)
    requires |es| >= 2
    ensures (forall k :: 0 <= k < |es| - 1 ==> BandFits(rects, es[k], es[k + 1]))
        ==> BandFits(rects, es[0], es[1])
            && forall k :: 0 <= k < |es[1..]| - 1 ==> BandFits(rects, es[1..][k], es[1..][k + 1])
  {
    hide BandFits;
  }

  lemma {:induction false} BandsCover(rects: seq<RegionRect>, es: seq<int>, px: int, py: int)
    requires EdgesFrom(rects, es) && AllNonEmpty(rects)
    requires Visible(px, py) || forall k :: 0 <= k < |es| - 1 ==> BandFits(rects, es[k], es[k + 1])
    ensures Covers(Bands(rects, es), px, py)
       <==> es[0] <= py < es[|es| - 1] && Covers(rects, px, py)
    decreases |es|
  {
    if |es| < 2 {
    } else {
      var tail := es[1..];
      EdgesFromTail(rects, es);
      BandsFitTail(rects, es);
      BandsCover(rects, tail, px, py);
      BandRectsCover(rects, es[0], es[1], px, py);
      CoversConcat(BandRects(rects, es[0], es[1]), Bands(rects, tail), px, py);
      if es[0] <= py < es[1] {
        BandPixels(rects, es, px, py);
      }
    }
  }

  lemma NonEmptySamePixels(rects: seq<RegionRect>)
    ensures SamePixels(NonEmpty(rects), rects)
  {
    forall px, py, r | r in rects && r.Has(px, py) ensures Covers(NonEmpty(rects), px, py) {
      assert r in NonEmpty(rects);
    }
  }

  lemma EdgesBound(kept: seq<RegionRect>, px: int, py: int)
    requires AllNonEmpty(kept) && Covers(kept, px, py)
    ensures var es := Edges(kept); es != [] && EdgesFrom(kept, es) && es[0] <= py < es[|es| - 1]
  {
    hide Edges;
    var es := Edges(kept);
    var r :| r in kept && r.Has(px, py);
    EdgesHave(kept, r);
    EdgesComplete(kept);
  }

  lemma EdgesComplete(kept: seq<RegionRect>)
    requires Edges(kept) != []
    ensures EdgesFrom(kept, Edges(kept))
  {
    var es := Edges(kept);
    forall q | q in kept ensures q.y as int in es && q.Bottom() in es {
      EdgesHave(kept, q);
    }
  }

  /** Every band of the list survives the clamps. */
  ghost predicate BandsFit(kept: seq<RegionRect>) {
    forall k :: 0 <= k < |Edges(kept)| - 1 ==> BandFits(kept, Edges(kept)[k], Edges(kept)[k + 1])
  }

  lemma NormalizedPixel(rects: seq<RegionRect>, px: int, py: int)
    requires Visible(px, py) || BandsFit(NonEmpty(rects))
    ensures Covers(Normalized(rects), px, py) <==> Covers(rects, px, py)
  {
    var kept := NonEmpty(rects);
    var es := Edges(kept);
    NonEmptySamePixels(rects);
    if es != [] {
      EdgesComplete(kept);
      BandsCover(kept, es, px, py);
    }
    if Covers(kept, px, py) {
      EdgesBound(kept, px, py);
    }
  }

  // ----- When nothing at all is lost -----

  /** At most one bottom edge lies beyond the last i16 row. */
  ghost predicate RowsFit(rects: seq<RegionRect>) {
    forall a, b :: a in rects && b in rects && !a.IsEmpty() && !b.IsEmpty()
      && a.Bottom() > I16_MAX && b.Bottom() > I16_MAX
      ==> a.Bottom() == b.Bottom()
  }

  /** `n` pixels of row `py` starting at `px` are all covered. */
  ghost predicate CoveredRun(rects: seq<RegionRect>, px: int, py: int, n: nat) {
    forall q :: px <= q < px + n ==> Covers(rects, q, py)
  }

  /** No row of the pixel set has 65536 neighbouring pixels. */
  ghost predicate ColumnsFit(rects: seq<RegionRect>) {
    forall px, py :: !WideRun(rects, px, py)
  }

  ghost predicate WideRun(rects: seq<RegionRect>, px: int, py: int) {
    CoveredRun(rects, px, py, U16_MAX + 1)
  }

  lemma EdgesAreOrdinary(kept: seq<RegionRect>, k: nat)
    requires AllNonEmpty(kept) && RowsFit(kept) && k + 1 < |Edges(kept)|
    ensures Edges(kept)[k] <= I16_MAX
  {
    var es := Edges(kept);
    var a := EdgesOnly(kept, es[k]);
    var b := EdgesOnly(kept, es[k + 1]);
    assert a.Bottom() > I16_MAX && b.Bottom() > I16_MAX ==> a.Bottom() == b.Bottom();
  }

  lemma SpanInBand(rects: seq<RegionRect>, y0: int, y1: int, p: Span)
    requires AllNonEmpty(rects) && y0 < y1 && p in MergedSpans(rects, y0, y1) && y0 <= I16_MAX
    ensures var r := SpanRect(p, y0, y1);
            !r.IsEmpty() && r.x == p.lo && r.y == y0 && r.Bottom() == y1 && r.Right() <= p.hi
  {
    MergedSpansCorrect(rects, y0, y1);
    var r :| r in rects && Across(r, y0, y1) && r.x == p.lo;
  }

  lemma BandRectsNormal(rects: seq<RegionRect>, y0: int, y1: int)
    requires AllNonEmpty(rects) && y0 < y1 && y0 <= I16_MAX
    ensures var b := BandRects(rects, y0, y1);
            NormalForm(b) && forall r :: r in b ==> r.y == y0 && r.Bottom() == y1
  {
    var m := MergedSpans(rects, y0, y1);
    var b := BandRects(rects, y0, y1);
    MergedSpansCorrect(rects, y0, y1);
    forall i | 0 <= i < |b| ensures m[i] in m && b[i] == SpanRect(m[i], y0, y1) {}
    forall p | p in m { SpanInBand(rects, y0, y1, p); }
    forall i, j | 0 <= i < j < |b| ensures Before(b[i], b[j]) {
      assert m[i].hi < m[j].lo;
    }
  }

  lemma NormalFormConcat(a: seq<RegionRect>, b: seq<RegionRect>)
    requires NormalForm(a) && NormalForm(b)
    requires forall r, q :: r in a && q in b ==> Before(r, q)
    ensures NormalForm(a + b)
  {
    var c := a + b;
    forall i, j | 0 <= i < j < |c| ensures Before(c[i], c[j]) {
      if i < |a| && |a| <= j {
        assert c[i] in a && c[j] in b;
      }
    }
  }

  lemma {:induction false} BandsNormal(rects: seq<RegionRect>, es: seq<int>)
    requires AllNonEmpty(rects) && Increasing(es) && es != []
    requires forall k :: 0 <= k < |es| - 1 ==> es[k] <= I16_MAX
    ensures NormalForm(Bands(rects, es))
    ensures forall r :: r in Bands(rects, es) ==> es[0] <= r.y
    decreases |es|
  {
    if |es| < 2 {
    } else {
      BandsNormal(rects, es[1..]);
      BandRectsNormal(rects, es[0], es[1]);
      NormalFormConcat(BandRects(rects, es[0], es[1]), Bands(rects, es[1..]));
    }
  }

  /** The result is in normal form whenever at most one bottom edge lies beyond the i16 range. */
  lemma NormalizedIsNormal(rects: seq<RegionRect>)
    requires RowsFit(rects)
    ensures NormalForm(Normalized(rects))
  {
    var kept := NonEmpty(rects);
    if Edges(kept) != [] {
      forall k | 0 <= k < |Edges(kept)| - 1 ensures Edges(kept)[k] <= I16_MAX {
        EdgesAreOrdinary(kept, k);
      }
      BandsNormal(kept, Edges(kept));
    }
  }

  lemma SameRowGap(s: seq<RegionRect>, r: RegionRect, q: RegionRect, py: int)
    requires NormalForm(s) && r in s && q in s && r != q
    requires r.y <= py < r.Bottom() && q.y <= py < q.Bottom()
    ensures r.Right() < q.x || q.Right() < r.x
  {
    var i :| 0 <= i < |s| && s[i] == r;
    var j :| 0 <= j < |s| && s[j] == q;
    assert Before(s[Min(i, j)], s[Max(i, j)]);
  }

  /** In a normal form a run of neighbouring pixels stays inside one rectangle. */
  lemma {:induction false} RunInOneRect(s: seq<RegionRect>, px: int, py: int, n: nat)
    requires NormalForm(s) && n > 0 && CoveredRun(s, px, py, n)
    ensures exists r :: r in s && r.Has(px, py) && r.Has(px + n - 1, py)
    decreases n
  {
    if n == 1 {
      assert Covers(s, px, py);
    } else {
      RunInOneRect(s, px, py, n - 1);
      var r :| r in s && r.Has(px, py) && r.Has(px + n - 2, py);
      assert Covers(s, px + n - 1, py);
      var q :| q in s && q.Has(px + n - 1, py);
      if r != q {
        SameRowGap(s, r, q, py);
      }
    }
  }

  lemma NormalFormRunsFit(s: seq<RegionRect>)
    requires NormalForm(s)
    ensures ColumnsFit(s)
  {
    forall px, py ensures !WideRun(s, px, py) {
      if WideRun(s, px, py) {
        RunInOneRect(s, px, py, U16_MAX + 1);
      }
    }
  }

  lemma {:induction false} LowestBottom(rects: seq<RegionRect>) returns (m: RegionRect)
    requires rects != []
    ensures m in rects && forall r :: r in rects ==> r.Bottom() <= m.Bottom()
  {
    m := rects[0];
    if |rects| <= 1 {
    } else {
      var t := LowestBottom(rects[1..]);
      m := if t.Bottom() > m.Bottom() then t else m;
      assert forall r :: r in rects ==> r == rects[0] || r in rects[1..];
    }
  }

  /** A band that starts beyond the i16 range is drawn too high and ends above its true bottom. */
  lemma {:induction false} MisplacedBandsEndEarly(rects: seq<RegionRect>, es: seq<int>, low: int, r: RegionRect)
    requires AllNonEmpty(rects) && Increasing(es) && low in es && I16_MAX < low && es[|es| - 1] > low
    requires r in Bands(rects, es)
    ensures r.Bottom() < es[|es| - 1]
    decreases |es|
  {
    hide BandRects;
    var y0, y1 := es[0], es[1];
    if r in BandRects(rects, y0, y1) {
      BandEndsBy(rects, y0, y1, r);
      if y0 <= I16_MAX {
        assert y1 <= low;
      }
    } else {
      if y0 == low {
        MisplacedTailEndsEarly(rects, es[1..], r);
      } else {
        MisplacedBandsEndEarly(rects, es[1..], low, r);
      }
    }
  }

  lemma BandEndsBy(rects: seq<RegionRect>, y0: int, y1: int, r: RegionRect)
    requires AllNonEmpty(rects) && y0 < y1 && r in BandRects(rects, y0, y1)
    ensures r.Bottom() <= y1 && (I16_MAX < y0 ==> r.Bottom() < y1)
  {
    var m := MergedSpans(rects, y0, y1);
    var i :| 0 <= i < |m| && r == SpanRect(m[i], y0, y1);
    MergedSpansCorrect(rects, y0, y1);
    assert m[i] in m;
    var q :| q in rects && Across(q, y0, y1) && q.x == m[i].lo;
  }

  lemma {:induction false} MisplacedTailEndsEarly(rects: seq<RegionRect>, es: seq<int>, r: RegionRect)
    requires AllNonEmpty(rects) && Increasing(es) && es != [] && I16_MAX < es[0]
    requires r in Bands(rects, es)
    ensures r.Bottom() < es[|es| - 1]
    decreases |es|
  {
    hide BandRects;
    var y0, y1 := es[0], es[1];
    if r in BandRects(rects, y0, y1) {
      BandEndsBy(rects, y0, y1, r);
    } else {
      MisplacedTailEndsEarly(rects, es[1..], r);
    }
  }

  /** Where the lowest rectangle and a second bottom edge beyond the i16 range sit among the edges. */
  lemma DeepEdges(kept: seq<RegionRect>, a: RegionRect, m: RegionRect)
    requires AllNonEmpty(kept) && a in kept && m in kept && I16_MAX < a.Bottom() < m.Bottom()
    requires forall r :: r in kept ==> r.Bottom() <= m.Bottom()
    ensures var es := Edges(kept); var n := |es|;
            n >= 3 && m.y <= es[n - 3] && I16_MAX < es[n - 2] && es[n - 1] == m.Bottom()
  {
    hide Edges;
    var es := Edges(kept);
    var n := |es|;
    EdgesHave(kept, a);
    EdgesHave(kept, m);
    var u :| 0 <= u < n && es[u] == m.y as int;
    var v :| 0 <= v < n && es[v] == a.Bottom();
    var w :| 0 <= w < n && es[w] == m.Bottom();
    var q := EdgesOnly(kept, es[n - 1]);
    assert u < v < w == n - 1;
  }

  /** The first pixel of the lowest row of some rectangle is lost, as nothing reaches down to it. */
  lemma RowsLost(rects: seq<RegionRect>) returns (m: RegionRect)
    requires !RowsFit(rects)
    ensures m in rects && !m.IsEmpty() && m.Bottom() > I16_MAX && !Covers(Normalized(rects), m.x, m.Bottom() - 1)
    ensures forall r :: r in Normalized(rects) ==> r.Bottom() < m.Bottom()
  {
    var kept := NonEmpty(rects);
    var es := Edges(kept);
    var a, b :| a in rects && b in rects && !a.IsEmpty() && !b.IsEmpty()
      && a.Bottom() > I16_MAX && b.Bottom() > I16_MAX && a.Bottom() < b.Bottom();
    assert a in kept && b in kept;
    m := LowestBottom(kept);
    DeepEdges(kept, a, m);
    EdgesHave(kept, a);
    forall r | r in Normalized(rects) ensures r.Bottom() < m.Bottom() {
      MisplacedBandsEndEarly(kept, es, a.Bottom(), r);
    }
  }

  /** What normalising does to a list that does not fit: it loses a pixel. */
  lemma NormalizedLoses(rects: seq<RegionRect>) returns (px: int, py: int)
    requires !RowsFit(rects) || !ColumnsFit(rects)
    ensures Covers(rects, px, py) && !Covers(Normalized(rects), px, py)
  {
    if !RowsFit(rects) {
      var m := RowsLost(rects);
      px, py := m.x as int, m.Bottom() - 1;
      assert m.Has(px, py);
    } else {
      NormalizedIsNormal(rects);
      NormalFormRunsFit(Normalized(rects));
      var x, y :| WideRun(rects, x, y);
      assert !WideRun(Normalized(rects), x, y);
      px, py :| x <= px < x + U16_MAX + 1 && py == y && !Covers(Normalized(rects), px, py);
    }
  }

  /** The exact domain of the law "normalising keeps the pixel set": at most one bottom edge beyond
      the last i16 row, and no row with 65536 neighbouring pixels. */
  lemma NormalizedKeepsPixelsIff(rects: seq<RegionRect>)
    ensures SamePixels(Normalized(rects), rects) <==> RowsFit(rects) && ColumnsFit(rects)
  {
    var kept := NonEmpty(rects);
    var es := Edges(kept);
    NonEmptySamePixels(rects);
    if !RowsFit(rects) || !ColumnsFit(rects) {
      var px, py := NormalizedLoses(rects);
    } else {
      forall k | 0 <= k < |es| - 1 ensures BandFits(kept, es[k], es[k + 1]) {
        EdgesAreOrdinary(kept, k);
        ColumnsFitBand(rects, k);
      }
      forall px, py { NormalizedPixel(rects, px, py); }
    }
  }

  lemma ColumnsFitBand(rects: seq<RegionRect>, k: nat)
    requires ColumnsFit(rects) && k + 1 < |Edges(NonEmpty(rects))|
    ensures var kept := NonEmpty(rects);
            forall p :: p in MergedSpans(kept, Edges(kept)[k], Edges(kept)[k + 1]) ==> p.hi - p.lo <= U16_MAX
  {
    var kept := NonEmpty(rects);
    var es := Edges(kept)[k..];
    NonEmptySamePixels(rects);
    assert EdgesFrom(kept, es) by {
      forall r | r in kept ensures (r.y in es || r.y < es[0]) && (r.Bottom() in es || r.Bottom() < es[0]) {
        EdgesHave(kept, r);
      }
    }
    forall p | p in MergedSpans(kept, es[0], es[1]) ensures p.hi - p.lo <= U16_MAX {
      if p.hi - p.lo > U16_MAX {
        forall q | p.lo <= q < p.lo + (U16_MAX + 1) ensures Covers(rects, q, es[0]) {
          assert InSpans(MergedSpans(kept, es[0], es[1]), q);
          BandPixels(kept, es, q, es[0]);
        }
        assert WideRun(rects, p.lo, es[0]);
      }
    }
  }

  // ----- Idempotence -----

  /** No rectangle of a normal form is cut by an edge of another one. */
  lemma NoEdgeInside(s: seq<RegionRect>, r: RegionRect, e: int)
    requires NormalForm(s) && r in s && e in Edges(s)
    ensures !(r.y < e < r.Bottom())
  {
    var q := EdgesOnly(s, e);
    if q != r {
      var i :| 0 <= i < |s| && s[i] == r;
      var j :| 0 <= j < |s| && s[j] == q;
      assert Before(s[Min(i, j)], s[Max(i, j)]);
    }
  }

  function ToSpans(a: seq<RegionRect>): (s: seq<Span>)
    ensures |s| == |a| && forall i :: 0 <= i < |a| ==> s[i] == Span(a[i].x, a[i].Right())
  {
    if a == [] then [] else [Span(a[0].x, a[0].Right())] + ToSpans(a[1..])
  }

  lemma {:induction false} BandSpansConcat(a: seq<RegionRect>, b: seq<RegionRect>, y0: int, y1: int)
    ensures BandSpans(a + b, y0, y1) == BandSpans(a, y0, y1) + BandSpans(b, y0, y1)
  {
    hide Across;
    if a == [] {
      assert a + b == b;
    } else {
      assert (a + b)[1..] == a[1..] + b;
      BandSpansConcat(a[1..], b, y0, y1);
      var head := if Across(a[0], y0, y1) then [Span(a[0].x, a[0].Right())] else [];
      assert BandSpans(a + b, y0, y1) == head + BandSpans(a[1..] + b, y0, y1);
      assert BandSpans(a, y0, y1) == head + BandSpans(a[1..], y0, y1);
    }
  }

  lemma {:induction false} BandSpansUniform(a: seq<RegionRect>, y0: int, y1: int)
    ensures (forall r :: r in a ==> Across(r, y0, y1)) ==> BandSpans(a, y0, y1) == ToSpans(a)
    ensures (forall r :: r in a ==> !Across(r, y0, y1)) ==> BandSpans(a, y0, y1) == []
  {
    if a == [] {
    } else {
      BandSpansUniform(a[1..], y0, y1);
    }
  }

  lemma {:induction false} SortedStays(s: seq<Span>)
    requires SpansSorted(s)
    ensures SortSpans(s) == s
  {
    if s == [] {
    } else {
      SortedStays(s[1..]);
    }
  }

  lemma {:induction false} SeparatedStays(current: Span, rest: seq<Span>)
    requires Separated([current] + rest)
    ensures MergeSpans(current, rest) == [current] + rest
    decreases |rest|
  {
    if rest == [] {
    } else {
      var all := [current] + rest;
      assert all[0].hi < all[1].lo;
      assert [rest[0]] + rest[1..] == rest == all[1..];
      SeparatedStays(rest[0], rest[1..]);
    }
  }

  lemma SlicesAcross(s: seq<RegionRect>, i: nat, j: nat, y0: int, y1: int)
    requires i <= j <= |s|
    requires forall k :: 0 <= k < |s| ==> (Across(s[k], y0, y1) <==> i <= k < j)
    ensures forall r :: r in s[..i] ==> !Across(r, y0, y1)
    ensures forall r :: r in s[i..j] ==> Across(r, y0, y1)
    ensures forall r :: r in s[j..] ==> !Across(r, y0, y1)
  {
    hide Across;
    assert forall k :: 0 <= k < i ==> s[..i][k] == s[k];
    assert forall k :: 0 <= k < j - i ==> s[i..j][k] == s[i + k];
    assert forall k :: 0 <= k < |s| - j ==> s[j..][k] == s[j + k];
  }

  lemma BandSpansSlice(s: seq<RegionRect>, i: nat, j: nat, y0: int, y1: int)
    requires i <= j <= |s|
    requires forall k :: 0 <= k < |s| ==> (Across(s[k], y0, y1) <==> i <= k < j)
    ensures BandSpans(s, y0, y1) == ToSpans(s[i..j])
  {
    hide Across, BandSpans, ToSpans;
    var a, b, c := s[..i], s[i..j], s[j..];
    SlicesAcross(s, i, j, y0, y1);
    assert s == a + (b + c);
    BandSpansConcat(a, b + c, y0, y1);
    BandSpansConcat(b, c, y0, y1);
    BandSpansUniform(a, y0, y1);
    BandSpansUniform(b, y0, y1);
    BandSpansUniform(c, y0, y1);
  }

  lemma SeparatedReproduced(t: seq<Span>)
    requires Separated(t) && SpansNonEmpty(t)
    ensures SortSpans(t) == t
    ensures t != [] ==> MergeSpans(t[0], t[1..]) == t
  {
    forall k, l | 0 <= k < l < |t| ensures SpanLe(t[k], t[l]) {
      assert t[k] in t;
    }
    SortedStays(t);
    if t != [] {
      assert t == [t[0]] + t[1..];
      SeparatedStays(t[0], t[1..]);
    }
  }

  lemma NormalFormSlice(s: seq<RegionRect>, i: nat, j: nat)
    requires NormalForm(s) && i <= j <= |s|
    ensures NormalForm(s[i..j])
  {
    var a := s[i..j];
    forall r | r in a ensures !r.IsEmpty() { assert r in s; }
    forall k, l | 0 <= k < l < |a| ensures Before(a[k], a[l]) {
      assert Before(s[i + k], s[i + l]);
    }
  }

  lemma {:induction false} SpanRectsReproduce(a: seq<RegionRect>, y0: int, y1: int)
    requires forall r :: r in a ==> r.y == y0 && r.Bottom() == y1
    ensures SpanRects(ToSpans(a), y0, y1) == a
  {
    if a == [] {
    } else {
      SpanRectsReproduce(a[1..], y0, y1);
      assert a[0] in a && SpanRect(ToSpans(a)[0], y0, y1) == a[0];
      assert ToSpans(a)[1..] == ToSpans(a[1..]);
    }
  }

  lemma OneBandSeparated(a: seq<RegionRect>, y0: int)
    requires NormalForm(a)
    requires forall r :: r in a ==> r.y == y0
    ensures Separated(ToSpans(a)) && SpansNonEmpty(ToSpans(a))
  {
    var t := ToSpans(a);
    forall k | 0 <= k < |a| ensures t[k].lo < t[k].hi {
      assert a[k] in a;
    }
    forall k, l | 0 <= k < l < |a| ensures t[k].hi < t[l].lo {
      BandGap(a, y0, k, l);
    }
  }

  lemma BandGap(a: seq<RegionRect>, y0: int, k: nat, l: nat)
    requires NormalForm(a) && k < l < |a|
    requires forall r :: r in a ==> r.y == y0
    ensures a[k].Right() < a[l].x
  {
    assert a[k] in a && a[l] in a && Before(a[k], a[l]);
  }

  /** A stretch of a normal form that is one whole band is reproduced by the sweep. */
  lemma BandReproduced(s: seq<RegionRect>, i: nat, j: nat, y0: int, y1: int)
    requires NormalForm(s) && i <= j <= |s|
    requires forall k :: 0 <= k < |s| ==> (Across(s[k], y0, y1) <==> i <= k < j)
    requires forall k :: i <= k < j ==> s[k].y == y0 && s[k].Bottom() == y1
    ensures BandRects(s, y0, y1) == s[i..j]
  {
    NormalFormSlice(s, i, j);
    OneBandSeparated(s[i..j], y0);
    SpanRectsReproduce(s[i..j], y0, y1);
    SeparatedReproduced(ToSpans(s[i..j]));
    BandSpansSlice(s, i, j, y0, y1);
  }

  /** The rectangles above row `e` are a prefix. */
  lemma RowPrefix(s: seq<RegionRect>, i: nat, e: int) returns (j: nat)
    requires NormalForm(s) && i <= |s|
    requires forall q :: 0 <= q < i ==> s[q].y < e
    ensures i <= j <= |s|
    ensures forall q :: 0 <= q < |s| ==> (q < j <==> s[q].y < e)
  {
    j := i;
    while j < |s| && s[j].y < e
      invariant i <= j <= |s|
      invariant forall q :: 0 <= q < j ==> s[q].y < e
    {
      j := j + 1;
    }
    forall q | j <= q < |s| ensures s[q].y >= e {
      if q > j {
        assert Before(s[j], s[q]);
        assert s[j] in s;
      }
    }
  }

  lemma BandOfRect(s: seq<RegionRect>, k: nat, r: RegionRect)
    requires NormalForm(s) && r in s && k + 1 < |Edges(s)|
    ensures Across(r, Edges(s)[k], Edges(s)[k + 1]) <==> Edges(s)[k] <= r.y < Edges(s)[k + 1]
    ensures Across(r, Edges(s)[k], Edges(s)[k + 1]) ==> r.y == Edges(s)[k] && r.Bottom() == Edges(s)[k + 1]
  {
    var es := Edges(s);
    EdgesHave(s, r);
    NoEdgeInside(s, r, es[k]);
    NoEdgeInside(s, r, es[k + 1]);
  }

  lemma BandIsStretch(s: seq<RegionRect>, i: nat, j: nat, k: nat)
    requires NormalForm(s) && i <= j <= |s| && k + 1 < |Edges(s)|
    requires forall q :: 0 <= q < |s| ==> (q < i <==> s[q].y < Edges(s)[k])
    requires forall q :: 0 <= q < |s| ==> (q < j <==> s[q].y < Edges(s)[k + 1])
    ensures forall q :: 0 <= q < |s| ==> (Across(s[q], Edges(s)[k], Edges(s)[k + 1]) <==> i <= q < j)
    ensures forall q :: i <= q < j ==> s[q].y == Edges(s)[k] && s[q].Bottom() == Edges(s)[k + 1]
  {
    forall q | 0 <= q < |s|
      ensures Across(s[q], Edges(s)[k], Edges(s)[k + 1]) <==> i <= q < j
      ensures i <= q < j ==> s[q].y == Edges(s)[k] && s[q].Bottom() == Edges(s)[k + 1]
    {
      BandOfRect(s, k, s[q]);
    }
  }

  lemma StartsAboveLastEdge(s: seq<RegionRect>, r: RegionRect)
    requires AllNonEmpty(s) && r in s
    ensures Edges(s) != [] && r.y < Edges(s)[|Edges(s)| - 1]
  {
    EdgesHave(s, r);
  }

  lemma AllAboveLastEdge(s: seq<RegionRect>, i: nat)
    requires AllNonEmpty(s) && i <= |s| && Edges(s) != []
    requires forall q :: 0 <= q < |s| ==> (q < i <==> s[q].y < Edges(s)[|Edges(s)| - 1])
    ensures i == |s|
  {
    if s != [] {
      StartsAboveLastEdge(s, s[|s| - 1]);
    }
  }

  /** One band of the induction in TailReproduced. */
  lemma BandThenTail(s: seq<RegionRect>, i: nat, j: nat, k: nat)
    requires NormalForm(s) && i <= j <= |s| && k + 1 < |Edges(s)|
    requires forall q :: 0 <= q < |s| ==> (q < i <==> s[q].y < Edges(s)[k])
    requires forall q :: 0 <= q < |s| ==> (q < j <==> s[q].y < Edges(s)[k + 1])
    requires Bands(s, Edges(s)[k + 1..]) == s[j..]
    ensures Bands(s, Edges(s)[k..]) == s[i..]
  {
    hide NormalForm, BandRects, Edges, Bands, Across;
    BandIsStretch(s, i, j, k);
    BandReproduced(s, i, j, Edges(s)[k], Edges(s)[k + 1]);
    BandsStep(s, Edges(s), k);
    SliceSplit(s, i, j);
  }

  lemma {:induction false} TailReproduced(s: seq<RegionRect>, i: nat, k: nat)
    requires NormalForm(s) && i <= |s| && k < |Edges(s)|
    requires forall q :: 0 <= q < |s| ==> (q < i <==> s[q].y < Edges(s)[k])
    ensures Bands(s, Edges(s)[k..]) == s[i..]
    decreases |Edges(s)| - k
  {
    assert AllNonEmpty(s);
    hide NormalForm, BandRects, Edges, Bands, Across;
    if k == |Edges(s)| - 1 {
      AllAboveLastEdge(s, i);
      BandsEnd(s, Edges(s)[k..]);
    } else {
      var j := RowPrefix(s, i, Edges(s)[k + 1]);
      TailReproduced(s, j, k + 1);
      BandThenTail(s, i, j, k);
    }
  }

  lemma BandsEnd(rects: seq<RegionRect>, es: seq<int>)
    requires |es| < 2
    ensures Bands(rects, es) == []
  {
  }

  lemma BandsStep(rects: seq<RegionRect>, es: seq<int>, k: nat)
    requires k + 1 < |es|
    ensures Bands(rects, es[k..]) == BandRects(rects, es[k], es[k + 1]) + Bands(rects, es[k + 1..])
  {
    assert es[k..][1..] == es[k + 1..];
  }

  lemma {:induction false} NonEmptyStays(s: seq<RegionRect>)
    requires AllNonEmpty(s)
    ensures NonEmpty(s) == s
  {
    if s == [] {
    } else {
      NonEmptyStays(s[1..]);
    }
  }

  /** Normalising is the identity on normal forms. */
  lemma NormalFormFixed(s: seq<RegionRect>)
    requires NormalForm(s)
    ensures Normalized(s) == s
  {
    NonEmptyStays(s);
    if s != [] {
      var es := Edges(s);
      EdgesHave(s, s[0]);
      forall q | 0 <= q < |s| ensures s[q].y >= es[0] {
        EdgesHave(s, s[q]);
      }
      TailReproduced(s, 0, 0);
      assert es[0..] == es;
    }
  }

  lemma {:induction false} BandsPrefix(rects: seq<RegionRect>, es: seq<int>, k: nat) returns (prefix: seq<RegionRect>)
    requires k < |es|
    ensures Bands(rects, es) == prefix + Bands(rects, es[k..])
    decreases k
  {
    hide BandRects;
    if k == 0 {
      prefix := [];
      assert es[0..] == es;
    } else {
      var p := BandsPrefix(rects, es, k - 1);
      BandsStep(rects, es, k - 1);
      prefix := p + BandRects(rects, es[k - 1], es[k]);
    }
  }

  /** A rectangle crossing a band is drawn there as part of some interval. */
  lemma DrawnSpan(rects: seq<RegionRect>, m: RegionRect, y0: int, y1: int) returns (p: Span, q: RegionRect)
    requires AllNonEmpty(rects) && m in rects && Across(m, y0, y1)
    ensures p.Has(m.x) && q in rects && Across(q, y0, y1) && q.x == p.lo
    ensures SpanRect(p, y0, y1) in BandRects(rects, y0, y1)
  {
    var s := MergedSpans(rects, y0, y1);
    MergedSpansCorrect(rects, y0, y1);
    assert Crossed(rects, y0, y1, m.x);
    p :| p in s && p.Has(m.x);
    q :| q in rects && Across(q, y0, y1) && q.x == p.lo;
    var i :| 0 <= i < |s| && s[i] == p;
    assert BandRects(rects, y0, y1)[i] == SpanRect(p, y0, y1);
  }

  /** Two bottom edges beyond the i16 range leave overlapping bands behind. */
  lemma RowsLostOverlap(rects: seq<RegionRect>)
    requires !RowsFit(rects)
    ensures !NormalForm(Normalized(rects))
  {
    var kept := NonEmpty(rects);
    var es := Edges(kept);
    var n := |es|;
    var a, b :| a in rects && b in rects && !a.IsEmpty() && !b.IsEmpty()
      && a.Bottom() > I16_MAX && b.Bottom() > I16_MAX && a.Bottom() < b.Bottom();
    assert a in kept && b in kept;
    var m := LowestBottom(kept);
    DeepEdges(kept, a, m);
    var p1, q := DrawnSpan(kept, m, es[n - 2], es[n - 1]);
    DeepEdges(kept, a, q);
    var p0, q0 := DrawnSpan(kept, q, es[n - 3], es[n - 2]);
    MisdrawnOverlap(p0, q0, es[n - 3], es[n - 2], p1, q, es[n - 1]);
    var prefix := BandsPrefix(kept, es, n - 3);
    BandsStep(kept, es, n - 3);
    BandsStep(kept, es, n - 2);
    OverlapBreaksForm(prefix, BandRects(kept, es[n - 3], es[n - 2]), BandRects(kept, es[n - 2], es[n - 1]),
                      Bands(kept, es[n - 1..]), SpanRect(p0, es[n - 3], es[n - 2]), SpanRect(p1, es[n - 2], es[n - 1]));
  }

  lemma MisdrawnOverlap(p0: Span, q0: RegionRect, y0: int, y1: int, p1: Span, q1: RegionRect, y2: int)
    requires q0.x == p0.lo && Across(q0, y0, y1) && y0 < y1 && I16_MAX < y1
    requires q1.x == p1.lo && Across(q1, y1, y2) && y1 < y2
    requires p0.Has(q1.x)
    ensures !Before(SpanRect(p0, y0, y1), SpanRect(p1, y1, y2))
  {
    var low, last := SpanRect(p0, y0, y1), SpanRect(p1, y1, y2);
    assert last.y == I16_MAX && low.Bottom() > I16_MAX;
    assert last.x == q1.x <= low.Right();
  }

  lemma OverlapBreaksForm(prefix: seq<RegionRect>, low: seq<RegionRect>, last: seq<RegionRect>,
                          tail: seq<RegionRect>, r: RegionRect, q: RegionRect)
    requires r in low && q in last && !Before(r, q)
    ensures !NormalForm(prefix + (low + (last + tail)))
  {
    var out := prefix + (low + (last + tail));
    var i :| 0 <= i < |low| && low[i] == r;
    var j :| 0 <= j < |last| && last[j] == q;
    assert out[|prefix| + i] == r && out[|prefix| + |low| + j] == q;
  }

  /** Normalising twice is normalising once, exactly when at most one bottom edge lies beyond the
      last i16 row. */
  lemma NormalizedIdempotentIff(rects: seq<RegionRect>)
    ensures Normalized(Normalized(rects)) == Normalized(rects) <==> RowsFit(rects)
    ensures NormalForm(Normalized(rects)) <==> RowsFit(rects)
  {
    var out := Normalized(rects);
    if RowsFit(rects) {
      NormalizedIsNormal(rects);
      NormalFormFixed(out);
    } else {
      RowsLostOverlap(rects);
      if RowsFit(out) {
        NormalizedIsNormal(out);
      } else {
        var m := RowsLost(out);
      }
    }
  }
}
