/** Depth-1 bitmaps and their YX-banded rectangles. */
module Bitmap {
  import opened Ints
  import opened Regions

  /** Where row `y` starts in a row-major bitmap of width `w`. */
  function RowStart(w: nat, y: nat): nat {
    if y == 0 then 0 else RowStart(w, y - 1) + w
  }

  lemma {:induction false} RowStartIsProduct(w: nat, y: nat)
    ensures RowStart(w, y) == y * w
  {
    if y == 0 {
    } else {
      RowStartIsProduct(w, y - 1);
    }
  }

  lemma {:induction false} RowStartMonotone(w: nat, y: nat, h: nat)
    requires y <= h
    ensures RowStart(w, y) <= RowStart(w, h)
    decreases h - y
  {
    if y == h {
    } else {
      RowStartMonotone(w, y + 1, h);
    }
  }

  /** Pixel (x, y) of a tightly packed bitmap lies inside it and is set. */
  predicate IsSet(bytes: seq<Byte>, w: nat, h: nat, x: int, y: int) {
    0 <= x < w && 0 <= y < h && RowStart(w, y) + x < |bytes| && bytes[RowStart(w, y) + x] != 0
  }

  // ----- Rows -----

  datatype Run = Run(start: int, len: int) {
    predicate Has(x: int) { start <= x < start + len }
  }

  predicate InRuns(runs: seq<Run>, x: int) {
    exists r :: r in runs && r.Has(x)
  }

  /** Non-empty runs from left to right, no two of them touching. */
  ghost predicate Maximal(runs: seq<Run>) {
    && (forall r :: r in runs ==> r.len > 0)
    && (forall i, j :: 0 <= i < j < |runs| ==> runs[i].start + runs[i].len < runs[j].start)
  }

  /** Two maximal run lists over the same pixels are the same list. */
  lemma {:induction false} RunsCanonical(a: seq<Run>, b: seq<Run>)
    requires Maximal(a) && Maximal(b)
    requires forall x :: InRuns(a, x) <==> InRuns(b, x)
    ensures a == b
  {
    if a == [] {
      if b != [] {
        FirstRunAgrees(b, a);
      }
    } else {
      FirstRunAgrees(a, b);
      FirstRunAgrees(b, a);
      var p, q := a[1..], b[1..];
      forall x ensures InRuns(p, x) <==> InRuns(q, x) {
        TailPixels(a, x);
        TailPixels(b, x);
      }
      RunsCanonical(p, q);
    }
  }

  lemma TailPixels(a: seq<Run>, x: int)
    requires Maximal(a) && a != []
    ensures Maximal(a[1..])
    ensures InRuns(a[1..], x) <==> InRuns(a, x) && !a[0].Has(x)
  {
    var t := a[1..];
    forall r | r in t ensures r.len > 0 && a[0].start + a[0].len < r.start {
      var i :| 0 <= i < |t| && t[i] == r;
      assert a[i + 1] == r && r in a;
    }
    if InRuns(a, x) && !a[0].Has(x) {
      var r :| r in a && r.Has(x);
      assert a == [a[0]] + t;
    }
  }

  lemma FirstRunAgrees(a: seq<Run>, b: seq<Run>)
    requires Maximal(a) && Maximal(b) && a != []
    requires forall x :: InRuns(a, x) <==> InRuns(b, x)
    ensures b != [] && b[0].start <= a[0].start
    ensures b[0].start == a[0].start ==> b[0].len >= a[0].len
  {
    var s := a[0].start;
    assert a[0] in a && a[0].Has(s);
    assert InRuns(b, s);
    RunsStartAt(b, s);
    GapAfterFirst(b);
    assert !InRuns(a, b[0].start + b[0].len);
  }

  lemma GapAfterFirst(b: seq<Run>)
    requires Maximal(b) && b != []
    ensures !InRuns(b, b[0].start + b[0].len)
  {
    var e := b[0].start + b[0].len;
    forall r | r in b ensures !r.Has(e) {
      var k :| 0 <= k < |b| && b[k] == r;
      assert k > 0 ==> b[0].start + b[0].len < b[k].start;
    }
  }

  lemma RunsStartAt(b: seq<Run>, x: int)
    requires Maximal(b) && InRuns(b, x)
    ensures b != [] && b[0].start <= x
  {
    var r :| r in b && r.Has(x);
    var k :| 0 <= k < |b| && b[k] == r;
    assert k > 0 ==> b[0].start + b[0].len < b[k].start;
    assert b[0] in b;
  }

  /** The run-length scan of one row. */
  method RowRuns(row: seq<Byte>) returns (runs: seq<Run>)
    ensures Maximal(runs)
    ensures forall x :: InRuns(runs, x) <==> 0 <= x < |row| && row[x] != 0
  {
    runs := [];
    var x := 0;
    while x < |row|
      invariant 0 <= x <= |row|
      invariant ScannedTo(runs, row, x)
    {
      if row[x] != 0 {
        var start := x;
        while x < |row| && row[x] != 0
          invariant start <= x <= |row|
          invariant forall c :: start <= c < x ==> row[c] != 0
        {
          x := x + 1;
        }
        ScanRun(runs, row, start, x);
        runs := runs + [Run(start, x - start)];
      } else {
        x := x + 1;
      }
    }
  }

  /** `runs` is right about the first `x` pixels, and a run that reaches `x` is complete. */
  ghost predicate ScannedTo(runs: seq<Run>, row: seq<Byte>, x: int)
    requires 0 <= x <= |row|
  {
    && Maximal(runs)
    && (forall r :: r in runs ==> r.start + r.len <= x && (x < |row| && row[x] != 0 ==> r.start + r.len < x))
    && (forall c :: InRuns(runs, c) <==> 0 <= c < x && row[c] != 0)
  }

  lemma ScanRun(runs: seq<Run>, row: seq<Byte>, start: nat, x: nat)
    requires start < x <= |row| && ScannedTo(runs, row, start)
    requires forall c :: start <= c < x ==> row[c] != 0
    requires x < |row| ==> row[x] == 0
    ensures ScannedTo(runs + [Run(start, x - start)], row, x)
  {
    var run := Run(start, x - start);
    forall c { AppendRun(runs, run, c); }
    assert forall r :: r in runs + [run] ==> r in runs || r == run;
    assert forall i :: 0 <= i < |runs| ==> runs[i] in runs;
  }

  lemma AppendRun(runs: seq<Run>, run: Run, c: int)
    ensures InRuns(runs + [run], c) <==> InRuns(runs, c) || run.Has(c)
  {
    if InRuns(runs, c) {
      var r :| r in runs && r.Has(c);
      assert r in runs + [run];
    }
    assert run in runs + [run];
  }

  // ----- Bands -----

  /** A rectangle before its fields are cut down to wire integers. */
  datatype Block = Block(x: int, y: int, width: int, height: int) {
    predicate Has(px: int, py: int) { x <= px < x + width && y <= py < y + height }

    /** `x as i16, y as i16, width as u16, height as u16` */
    function Wire(): RegionRect {
      RegionRect(WrapI16(x), WrapI16(y), WrapU16(width), WrapU16(height))
    }
  }

  predicate BlocksCover(blocks: seq<Block>, px: int, py: int) {
    exists b :: b in blocks && b.Has(px, py)
  }

  predicate BlockBefore(a: Block, b: Block) {
    a.y + a.height <= b.y || (a.y == b.y && a.height == b.height && a.x + a.width < b.x)
  }

  function WireRects(blocks: seq<Block>): (r: seq<RegionRect>)
    ensures |r| == |blocks| && forall i :: 0 <= i < |blocks| ==> r[i] == blocks[i].Wire()
  {
    if blocks == [] then [] else [blocks[0].Wire()] + WireRects(blocks[1..])
  }

  /** Rows `y` and `y - 1` do not have the same pixels. */
  ghost predicate RowChanges(bytes: seq<Byte>, w: nat, h: nat, y: int) {
    exists x :: IsSet(bytes, w, h, x, y) != IsSet(bytes, w, h, x, y - 1)
  }

  /** What the blocks of the first `n` rows look like. */
  ghost predicate Banded(blocks: seq<Block>, bytes: seq<Byte>, w: nat, h: nat, n: int) {
    && BlocksOrdered(blocks)
    && (forall b :: b in blocks ==> BlockInside(b, w, n))
    && (forall px, py :: BlocksCover(blocks, px, py) <==> py < n && IsSet(bytes, w, h, px, py))
  }

  ghost predicate BlocksOrdered(blocks: seq<Block>) {
    forall i, j :: 0 <= i < j < |blocks| ==> BlockBefore(blocks[i], blocks[j])
  }

  ghost predicate BlockInside(b: Block, w: nat, n: int) {
    && 0 <= b.x && 0 < b.width && b.x + b.width <= w
    && 0 <= b.y && 0 < b.height && b.y + b.height <= n
  }

  /** `runs` are exactly the set pixels of row `y`. */
  ghost predicate RowIs(runs: seq<Run>, bytes: seq<Byte>, w: nat, h: nat, y: int) {
    Maximal(runs) && forall x :: InRuns(runs, x) <==> IsSet(bytes, w, h, x, y)
  }

  lemma RowsDiffer(a: seq<Run>, b: seq<Run>, bytes: seq<Byte>, w: nat, h: nat, y: int)
    requires RowIs(a, bytes, w, h, y) && RowIs(b, bytes, w, h, y - 1) && a != b
    ensures RowChanges(bytes, w, h, y)
  {
    if forall x :: IsSet(bytes, w, h, x, y) == IsSet(bytes, w, h, x, y - 1) {
      RunsCanonical(a, b);
    }
  }

  lemma FirstRowChanges(a: seq<Run>, bytes: seq<Byte>, w: nat, h: nat)
    requires RowIs(a, bytes, w, h, 0) && a != []
    ensures RowChanges(bytes, w, h, 0)
  {
    assert a[0] in a && a[0].Has(a[0].start);
    assert InRuns(a, a[0].start);
    assert IsSet(bytes, w, h, a[0].start, 0) && !IsSet(bytes, w, h, a[0].start, -1);
  }

  function BandBlocks(runs: seq<Run>, y: int, height: int): (b: seq<Block>)
    ensures |b| == |runs| && forall i :: 0 <= i < |runs| ==> b[i] == Block(runs[i].start, y, runs[i].len, height)
  {
    if runs == [] then [] else [Block(runs[0].start, y, runs[0].len, height)] + BandBlocks(runs[1..], y, height)
  }

  lemma BandBlocksCover(runs: seq<Run>, y: int, height: int, px: int, py: int)
    ensures BlocksCover(BandBlocks(runs, y, height), px, py) <==> y <= py < y + height && InRuns(runs, px)
  {
    var b := BandBlocks(runs, y, height);
    if r :| r in runs && r.Has(px) && y <= py < y + height {
      var i :| 0 <= i < |runs| && runs[i] == r;
      assert b[i] in b && b[i].Has(px, py);
    }
    if q :| q in b && q.Has(px, py) {
      var i :| 0 <= i < |b| && b[i] == q;
      assert runs[i] in runs;
    }
  }

  lemma BlocksConcat(a: seq<Block>, b: seq<Block>, px: int, py: int)
    ensures BlocksCover(a + b, px, py) <==> BlocksCover(a, px, py) || BlocksCover(b, px, py)
  {
    forall r | r in a && r.Has(px, py) ensures BlocksCover(a + b, px, py) { assert r in a + b; }
    forall r | r in b && r.Has(px, py) ensures BlocksCover(a + b, px, py) { assert r in a + b; }
  }

  lemma BandInside(runs: seq<Run>, bytes: seq<Byte>, w: nat, h: nat, y: int, height: int, b: Block)
    requires RowIs(runs, bytes, w, h, y) && b in BandBlocks(runs, y, height)
    ensures 0 <= b.x && 0 < b.width && b.x + b.width <= w && b.y == y && b.height == height
  {
    var band := BandBlocks(runs, y, height);
    var i :| 0 <= i < |band| && band[i] == b;
    var r := runs[i];
    assert r in runs;
    assert r.Has(r.start) && r.Has(r.start + r.len - 1);
    assert InRuns(runs, r.start) && InRuns(runs, r.start + r.len - 1);
    assert IsSet(bytes, w, h, r.start, y) && IsSet(bytes, w, h, r.start + r.len - 1, y);
  }

  lemma BandOrdered(blocks: seq<Block>, runs: seq<Run>, y: int, height: int)
    requires BlocksOrdered(blocks) && Maximal(runs)
    requires forall b :: b in blocks ==> b.y + b.height <= y
    ensures BlocksOrdered(blocks + BandBlocks(runs, y, height))
  {
    var all := blocks + BandBlocks(runs, y, height);
    forall i, j | 0 <= i < j < |all| ensures BlockBefore(all[i], all[j]) {
      if i < |blocks| {
        assert blocks[i] in blocks;
      }
    }
  }

  /** Adding the band of equal rows `y .. yEnd` to what stands above it. */
  lemma AddBand(blocks: seq<Block>, runs: seq<Run>, bytes: seq<Byte>, w: nat, h: nat, y: int, yEnd: int)
    requires Banded(blocks, bytes, w, h, y) && 0 <= y < yEnd <= h
    requires forall k :: y <= k < yEnd ==> RowIs(runs, bytes, w, h, k)
    ensures Banded(blocks + BandBlocks(runs, y, yEnd - y), bytes, w, h, yEnd)
  {
    assert RowIs(runs, bytes, w, h, y);
    forall b | b in blocks ensures b.y + b.height <= y {
      assert BlockInside(b, w, y);
    }
    BandOrdered(blocks, runs, y, yEnd - y);
    AddBandInside(blocks, runs, bytes, w, h, y, yEnd);
    forall px, py ensures BlocksCover(blocks + BandBlocks(runs, y, yEnd - y), px, py)
                     <==> py < yEnd && IsSet(bytes, w, h, px, py) {
      assert y <= py < yEnd ==> RowIs(runs, bytes, w, h, py);
      AddBandPixel(blocks, runs, y, yEnd, px, py, IsSet(bytes, w, h, px, py));
    }
  }

  lemma AddBandInside(blocks: seq<Block>, runs: seq<Run>, bytes: seq<Byte>, w: nat, h: nat, y: int, yEnd: int)
    requires forall b :: b in blocks ==> BlockInside(b, w, y)
    requires 0 <= y < yEnd && RowIs(runs, bytes, w, h, y)
    ensures forall b :: b in blocks + BandBlocks(runs, y, yEnd - y) ==> BlockInside(b, w, yEnd)
  {
    var band := BandBlocks(runs, y, yEnd - y);
    forall b | b in blocks + band ensures BlockInside(b, w, yEnd) {
      if b in band {
        BandInside(runs, bytes, w, h, y, yEnd - y, b);
      } else {
        assert BlockInside(b, w, y);
      }
    }
  }

  lemma AddBandPixel(blocks: seq<Block>, runs: seq<Run>, y: int, yEnd: int, px: int, py: int, on: bool)
    requires y < yEnd
    requires BlocksCover(blocks, px, py) <==> py < y && on
    requires y <= py < yEnd ==> (InRuns(runs, px) <==> on)
    ensures BlocksCover(blocks + BandBlocks(runs, y, yEnd - y), px, py) <==> py < yEnd && on
  {
    BlocksConcat(blocks, BandBlocks(runs, y, yEnd - y), px, py);
    BandBlocksCover(runs, y, yEnd - y, px, py);
  }

  /** The rectangles stand for exactly the set pixels. */
  ghost predicate RoundTrips(rects: seq<RegionRect>, bytes: seq<Byte>, w: nat, h: nat) {
    forall px, py :: Covers(rects, px, py) <==> IsSet(bytes, w, h, px, py)
  }

  /** No run starts at a column, and no band at a row, that an i16 cannot hold. */
  ghost predicate Addressable(bytes: seq<Byte>, w: nat, h: nat) {
    && (forall x, y :: x > I16_MAX && IsSet(bytes, w, h, x, y) ==> IsSet(bytes, w, h, x - 1, y))
    && (forall x, y :: y > I16_MAX && IsSet(bytes, w, h, x, y) ==> !RowChanges(bytes, w, h, y))
  }

  /** Every band starts where the bitmap changes, so touching bands have different pixels. */
  ghost predicate BandTopsChange(rects: seq<RegionRect>, bytes: seq<Byte>, w: nat, h: nat) {
    forall r :: r in rects ==> RowChanges(bytes, w, h, r.y)
  }

  ghost predicate TopsChange(blocks: seq<Block>, bytes: seq<Byte>, w: nat, h: nat) {
    forall b :: b in blocks ==> RowChanges(bytes, w, h, b.y)
  }

  ghost predicate BlocksFit(blocks: seq<Block>) {
    forall b :: b in blocks ==> b.x <= I16_MAX && b.y <= I16_MAX
  }

  lemma BlocksFitIffAddressable(blocks: seq<Block>, bytes: seq<Byte>, w: nat, h: nat)
    requires Banded(blocks, bytes, w, h, h) && TopsChange(blocks, bytes, w, h)
    ensures BlocksFit(blocks) <==> Addressable(bytes, w, h)
  {
    if BlocksFit(blocks) {
      forall x, y | x > I16_MAX && IsSet(bytes, w, h, x, y) ensures IsSet(bytes, w, h, x - 1, y) {
        assert BlocksCover(blocks, x, y);
        var b :| b in blocks && b.Has(x, y);
        assert b.Has(x - 1, y);
        assert BlocksCover(blocks, x - 1, y);
      }
      forall x, y | y > I16_MAX && IsSet(bytes, w, h, x, y) ensures !RowChanges(bytes, w, h, y) {
        DeepRowRepeats(blocks, bytes, w, h, x, y);
      }
    }
    if Addressable(bytes, w, h) {
      forall b | b in blocks ensures b.x <= I16_MAX && b.y <= I16_MAX {
        assert b.Has(b.x, b.y);
        assert BlocksCover(blocks, b.x, b.y);
        assert IsSet(bytes, w, h, b.x, b.y);
        LeftOfBlockIsClear(blocks, bytes, w, h, b);
      }
    }
  }

  lemma SameRowSameBand(blocks: seq<Block>, bytes: seq<Byte>, w: nat, h: nat, a: Block, b: Block, y: int)
    requires Banded(blocks, bytes, w, h, h) && a in blocks && b in blocks
    requires a.y <= y < a.y + a.height && b.y <= y < b.y + b.height
    ensures a.y == b.y && a.height == b.height
    ensures a != b ==> a.x + a.width < b.x || b.x + b.width < a.x
  {
    var i :| 0 <= i < |blocks| && blocks[i] == a;
    var j :| 0 <= j < |blocks| && blocks[j] == b;
    if i != j {
      assert BlockBefore(blocks[Min(i, j)], blocks[Max(i, j)]);
    }
  }

  lemma LeftOfBlockIsClear(blocks: seq<Block>, bytes: seq<Byte>, w: nat, h: nat, b: Block)
    requires Banded(blocks, bytes, w, h, h) && b in blocks
    ensures !IsSet(bytes, w, h, b.x - 1, b.y)
  {
    if IsSet(bytes, w, h, b.x - 1, b.y) {
      assert BlocksCover(blocks, b.x - 1, b.y);
      var c :| c in blocks && c.Has(b.x - 1, b.y);
      SameRowSameBand(blocks, bytes, w, h, b, c, b.y);
    }
  }

  lemma DeepRowRepeats(blocks: seq<Block>, bytes: seq<Byte>, w: nat, h: nat, x: int, y: int)
    requires Banded(blocks, bytes, w, h, h) && BlocksFit(blocks) && y > I16_MAX && IsSet(bytes, w, h, x, y)
    ensures !RowChanges(bytes, w, h, y)
  {
    assert BlocksCover(blocks, x, y);
    var a :| a in blocks && a.Has(x, y);
    forall c ensures IsSet(bytes, w, h, c, y) == IsSet(bytes, w, h, c, y - 1) {
      if IsSet(bytes, w, h, c, y) {
        assert BlocksCover(blocks, c, y);
        var b :| b in blocks && b.Has(c, y);
        assert b.Has(c, y - 1) && BlocksCover(blocks, c, y - 1);
      }
      if IsSet(bytes, w, h, c, y - 1) {
        assert BlocksCover(blocks, c, y - 1);
        var b :| b in blocks && b.Has(c, y - 1);
        SameRowSameBand(blocks, bytes, w, h, a, b, y - 1);
        assert b.Has(c, y) && BlocksCover(blocks, c, y);
      }
    }
  }

  lemma WireFields(b: Block, w: nat, h: nat)
    requires BlockInside(b, w, h) && w <= U16_MAX && h <= U16_MAX
    ensures b.Wire().width == b.width && b.Wire().height == b.height
    ensures b.Wire().x == if b.x <= I16_MAX then b.x else b.x - 0x1_0000
    ensures b.Wire().y == if b.y <= I16_MAX then b.y else b.y - 0x1_0000
  {
    WrapI16InRange(b.x);
    WrapI16InRange(b.y);
    WrapU16InRange(b.width);
    WrapU16InRange(b.height);
  }

  lemma WireKeepsPixels(blocks: seq<Block>, px: int, py: int)
    requires forall b :: b in blocks ==> (b.Wire().Has(px, py) <==> b.Has(px, py))
    ensures Covers(WireRects(blocks), px, py) <==> BlocksCover(blocks, px, py)
  {
    var out := WireRects(blocks);
    if b :| b in blocks && b.Has(px, py) {
      var i :| 0 <= i < |blocks| && blocks[i] == b;
      assert out[i] in out;
    }
    if r :| r in out && r.Has(px, py) {
      var i :| 0 <= i < |out| && out[i] == r;
      assert blocks[i] in blocks;
    }
  }

  lemma WireExact(blocks: seq<Block>, bytes: seq<Byte>, w: nat, h: nat)
    requires Banded(blocks, bytes, w, h, h) && BlocksFit(blocks) && w <= U16_MAX && h <= U16_MAX
    ensures var out := WireRects(blocks);
            RoundTrips(out, bytes, w, h) && NormalForm(out)
            && (TopsChange(blocks, bytes, w, h) ==> BandTopsChange(out, bytes, w, h))
  {
    var out := WireRects(blocks);
    forall b | b in blocks
      ensures b.Wire().x == b.x && b.Wire().y == b.y && b.Wire().width == b.width && b.Wire().height == b.height
    {
      assert BlockInside(b, w, h);
      WireFields(b, w, h);
    }
    forall px, py { WireKeepsPixels(blocks, px, py); }
    forall i | 0 <= i < |out| ensures !out[i].IsEmpty() && out[i].y == blocks[i].y {
      assert blocks[i] in blocks && BlockInside(blocks[i], w, h);
    }
    forall i, j | 0 <= i < j < |out| ensures Before(out[i], out[j]) {
      assert blocks[i] in blocks && blocks[j] in blocks && BlockBefore(blocks[i], blocks[j]);
    }
  }

  lemma WireWraps(blocks: seq<Block>, bytes: seq<Byte>, w: nat, h: nat)
    requires Banded(blocks, bytes, w, h, h) && !BlocksFit(blocks) && w <= U16_MAX && h <= U16_MAX
    ensures !RoundTrips(WireRects(blocks), bytes, w, h)
  {
    var out := WireRects(blocks);
    var b :| b in blocks && (b.x > I16_MAX || b.y > I16_MAX);
    assert BlockInside(b, w, h);
    WireFields(b, w, h);
    var i :| 0 <= i < |blocks| && blocks[i] == b;
    var r := b.Wire();
    assert out[i] == r && r in out;
    assert r.Has(r.x, r.y) && Covers(out, r.x, r.y);
    assert !IsSet(bytes, w, h, r.x, r.y);
  }

  // ----- bitmap_to_yx_banded_rects -----

  lemma RowContent(bytes: seq<Byte>, w: nat, h: nat, y: nat)
    requires y < h && |bytes| >= w * h
    ensures RowStart(w, y) == y * w && RowStart(w, y) + w <= |bytes|
    ensures forall x :: IsSet(bytes, w, h, x, y) <==> 0 <= x < w && bytes[RowStart(w, y) + x] != 0
  {
    RowStartIsProduct(w, y);
    RowStartIsProduct(w, h);
    RowStartMonotone(w, y + 1, h);
  }

  /** Run-length encode every row. */
  method AllRowRuns(bytes: seq<Byte>, w: nat, h: nat) returns (rowRuns: seq<seq<Run>>)
    requires |bytes| >= w * h
    ensures |rowRuns| == h
    ensures forall k :: 0 <= k < h ==> RowIs(rowRuns[k], bytes, w, h, k)
  {
    rowRuns := [];
    for y := 0 to h
      invariant |rowRuns| == y
      invariant forall k :: 0 <= k < y ==> RowIs(rowRuns[k], bytes, w, h, k)
    {
      RowContent(bytes, w, h, y);
      var row := bytes[y * w..y * w + w];
      var runs := RowRuns(row);
      assert RowIs(runs, bytes, w, h, y);
      rowRuns := rowRuns + [runs];
    }
  }

  lemma BandTopChanges(rowRuns: seq<seq<Run>>, bytes: seq<Byte>, w: nat, h: nat, y: nat)
    requires |rowRuns| == h && y < h && rowRuns[y] != []
    requires forall k :: 0 <= k < h ==> RowIs(rowRuns[k], bytes, w, h, k)
    requires y > 0 ==> rowRuns[y] != rowRuns[y - 1]
    ensures RowChanges(bytes, w, h, y)
  {
    assert RowIs(rowRuns[y], bytes, w, h, y);
    if y == 0 {
      FirstRowChanges(rowRuns[0], bytes, w, h);
    } else {
      assert RowIs(rowRuns[y - 1], bytes, w, h, y - 1);
      RowsDiffer(rowRuns[y], rowRuns[y - 1], bytes, w, h, y);
    }
  }

  lemma {:induction false} WireConcat(a: seq<Block>, b: seq<Block>)
    ensures WireRects(a + b) == WireRects(a) + WireRects(b)
  {
    if a == [] {
      assert a + b == b;
    } else {
      assert (a + b)[1..] == a[1..] + b;
      WireConcat(a[1..], b);
    }
  }

  /** The rectangles of one band. */
  method PushBand(runs: seq<Run>, y: int, bandHeight: int) returns (rects: seq<RegionRect>)
    ensures rects == WireRects(BandBlocks(runs, y, bandHeight))
  {
    rects := [];
    for i := 0 to |runs|
      invariant |rects| == i
      invariant forall j :: 0 <= j < i ==> rects[j] == Block(runs[j].start, y, runs[j].len, bandHeight).Wire()
    {
      rects := rects + [RegionRect(WrapI16(runs[i].start), WrapI16(y), WrapU16(runs[i].len), WrapU16(bandHeight))];
    }
  }

  /** One band of equal rows, or one empty row. */
  lemma MergeStep(rowRuns: seq<seq<Run>>, bytes: seq<Byte>, w: nat, blocks: seq<Block>, y: nat, yEnd: nat)
    requires forall k :: 0 <= k < |rowRuns| ==> RowIs(rowRuns[k], bytes, w, |rowRuns|, k)
    requires y < yEnd <= |rowRuns| && forall k :: y <= k < yEnd ==> rowRuns[k] == rowRuns[y]
    requires Banded(blocks, bytes, w, |rowRuns|, y)
    ensures Banded(blocks + BandBlocks(rowRuns[y], y, yEnd - y), bytes, w, |rowRuns|, yEnd)
  {
    forall k | y <= k < yEnd ensures RowIs(rowRuns[y], bytes, w, |rowRuns|, k) {
      assert RowIs(rowRuns[k], bytes, w, |rowRuns|, k);
    }
    AddBand(blocks, rowRuns[y], bytes, w, |rowRuns|, y, yEnd);
  }

  lemma NothingBanded(bytes: seq<Byte>, w: nat, h: nat)
    ensures Banded([], bytes, w, h, 0)
  {
  }

  /** Row `y` is not empty and its runs are not those of the row above. */
  predicate RunsChange(rowRuns: seq<seq<Run>>, y: int) {
    0 <= y < |rowRuns| && rowRuns[y] != [] && (y > 0 ==> rowRuns[y] != rowRuns[y - 1])
  }

  lemma NewTops(rowRuns: seq<seq<Run>>, blocks: seq<Block>, y: nat, height: nat)
    requires forall b :: b in blocks ==> RunsChange(rowRuns, b.y)
    requires y < |rowRuns| && RunsChange(rowRuns, y)
    ensures forall b :: b in blocks + BandBlocks(rowRuns[y], y, height) ==> RunsChange(rowRuns, b.y)
  {
    hide RunsChange;
    assert forall b :: b in BandBlocks(rowRuns[y], y, height) ==> b.y == y;
  }

  /** Merge consecutive rows with identical runs into bands. */
  method MergeRows(rowRuns: seq<seq<Run>>, ghost bytes: seq<Byte>, ghost w: nat)
    returns (rects: seq<RegionRect>, ghost blocks: seq<Block>)
    requires forall k :: 0 <= k < |rowRuns| ==> RowIs(rowRuns[k], bytes, w, |rowRuns|, k)
    ensures rects == WireRects(blocks) && Banded(blocks, bytes, w, |rowRuns|, |rowRuns|)
    ensures forall b :: b in blocks ==> RunsChange(rowRuns, b.y)
  {
    hide Banded, RowIs, WireRects, BandBlocks;
    ghost var h := |rowRuns|;
    rects := [];
    blocks := [];
    NothingBanded(bytes, w, h);
    var y := 0;
    while y < |rowRuns|
      invariant 0 <= y <= h
      invariant rects == WireRects(blocks) && Banded(blocks, bytes, w, h, y)
      invariant forall b :: b in blocks ==> RunsChange(rowRuns, b.y)
      invariant 0 < y < h && rowRuns[y] != [] ==> rowRuns[y] != rowRuns[y - 1]
    {
      if rowRuns[y] == [] {
        MergeStep(rowRuns, bytes, w, blocks, y, y + 1);
        assert blocks + BandBlocks([], y, 1) == blocks;
        y := y + 1;
        continue;
      }
      var yEnd := y + 1;
      while yEnd < |rowRuns| && rowRuns[yEnd] == rowRuns[y]
        invariant y < yEnd <= h
        invariant forall k :: y <= k < yEnd ==> rowRuns[k] == rowRuns[y]
      {
        yEnd := yEnd + 1;
      }
      var band := PushBand(rowRuns[y], y, yEnd - y);
      MergeStep(rowRuns, bytes, w, blocks, y, yEnd);
      WireConcat(blocks, BandBlocks(rowRuns[y], y, yEnd - y));
      NewTops(rowRuns, blocks, y, yEnd - y);
      blocks := blocks + BandBlocks(rowRuns[y], y, yEnd - y);
      rects := rects + band;
      y := yEnd;
    }
  }

  /** For bitmaps of pixmap size the rectangles stand for exactly the set pixels if and only if no run
      or band starts beyond the i16 range; then they are in normal form with maximal runs and bands. */
  method BitmapToYxBandedRects(bytes: seq<Byte>, width: nat, height: nat) returns (rects: seq<RegionRect>)
    ensures width == 0 || height == 0 || |bytes| < width * height ==> rects == []
    ensures |bytes| >= width * height && width <= U16_MAX && height <= U16_MAX ==>
              && (RoundTrips(rects, bytes, width, height) <==> Addressable(bytes, width, height))
              && (Addressable(bytes, width, height) ==> NormalForm(rects) && BandTopsChange(rects, bytes, width, height))
    ensures |bytes| >= width * height && width <= I16_MAX + 1 && height <= I16_MAX + 1 ==>
              RoundTrips(rects, bytes, width, height)
  {
    SmallBitmapsAddressable(bytes, width, height);
    if width == 0 || height == 0 || |bytes| < width * height {
      rects := [];
      return;
    }
    var rowRuns := AllRowRuns(bytes, width, height);
    ghost var blocks;
    rects, blocks := MergeRows(rowRuns, bytes, width);
    forall b | b in blocks ensures RowChanges(bytes, width, height, b.y) {
      BandTopChanges(rowRuns, bytes, width, height, b.y);
    }
    BlocksFitIffAddressable(blocks, bytes, width, height);
    if width <= U16_MAX && height <= U16_MAX {
      if BlocksFit(blocks) {
        WireExact(blocks, bytes, width, height);
      } else {
        WireWraps(blocks, bytes, width, height);
      }
    }
  }

  /** A bitmap no wider and no higher than 32768 always round-trips. */
  lemma SmallBitmapsAddressable(bytes: seq<Byte>, w: nat, h: nat)
    ensures w <= I16_MAX + 1 && h <= I16_MAX + 1 ==> Addressable(bytes, w, h)
  {
  }

  /** One set pixel in column 32768 of a row is enough to break it: its rectangle is at -32768. */
  lemma LateRunWraps(width: nat)
    requires I16_MAX + 1 < width <= U16_MAX
    ensures var bytes := seq(width, x => if x == I16_MAX + 1 then 1 else 0);
            && !Addressable(bytes, width, 1) && IsSet(bytes, width, 1, I16_MAX + 1, 0)
            && Block(I16_MAX + 1, 0, 1, 1).Wire() == RegionRect(-0x8000, 0, 1, 1)
  {
    var bytes := seq(width, x => if x == I16_MAX + 1 then 1 else 0);
    assert IsSet(bytes, width, 1, I16_MAX + 1, 0) && !IsSet(bytes, width, 1, I16_MAX, 0);
    WireFields(Block(I16_MAX + 1, 0, 1, 1), width, 1);
  }
}
