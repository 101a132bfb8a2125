/** What subtraction and union of rectangle lists leave before they normalise. */
module RegionLists {
  import opened Ints
  import opened Wrappers
  import opened Regions
  import opened RegionOps

  // ----- The lists before normalisation -----

  /** `cut` taken out of every piece. */
  ghost function SubtractEach(pieces: seq<RegionRect>, cut: RegionRect): seq<RegionRect> {
    if pieces == [] then [] else SubtractRect(pieces[0], cut) + SubtractEach(pieces[1..], cut)
  }

  /** Every cut taken out, one after the other. */
  ghost function DifferencePieces(pieces: seq<RegionRect>, cuts: seq<RegionRect>): seq<RegionRect>
    decreases |cuts|
  {
    if cuts == [] then pieces else DifferencePieces(SubtractEach(pieces, cuts[0]), cuts[1..])
  }

  /** For every source rectangle, the pieces that the result does not cover yet are appended to it. */
  ghost function UnionPieces(result: seq<RegionRect>, source: seq<RegionRect>): seq<RegionRect>
    decreases |source|
  {
    if source == [] then result
    else UnionPieces(result + DifferencePieces([source[0]], result), source[1..])
  }

  // ----- When a split overflows -----

  /** Somewhere in the run of cuts a strip would have to start beyond the last i16 coordinate. */
  ghost predicate CutOverflows(side: Side, pieces: seq<RegionRect>, cuts: seq<RegionRect>)
    decreases |cuts|
  {
    cuts != [] && (SomeOverflows(side, pieces, cuts[0]) || CutOverflows(side, SubtractEach(pieces, cuts[0]), cuts[1..]))
  }

  ghost predicate SomeOverflows(side: Side, pieces: seq<RegionRect>, cut: RegionRect) {
    exists p :: p in pieces && StripOverflows(side, p, cut)
  }

  ghost predicate UnionOverflows(side: Side, result: seq<RegionRect>, source: seq<RegionRect>)
    decreases |source|
  {
    source != [] &&
    (CutOverflows(side, [source[0]], result)
     || UnionOverflows(side, result + DifferencePieces([source[0]], result), source[1..]))
  }

  ghost predicate EachFits(pieces: seq<RegionRect>, cut: RegionRect) {
    !SomeOverflows(Rows, pieces, cut) && !SomeOverflows(Columns, pieces, cut)
  }

  ghost predicate CutsFit(pieces: seq<RegionRect>, cuts: seq<RegionRect>) {
    !CutOverflows(Rows, pieces, cuts) && !CutOverflows(Columns, pieces, cuts)
  }

  ghost predicate UnionFits(result: seq<RegionRect>, source: seq<RegionRect>) {
    !UnionOverflows(Rows, result, source) && !UnionOverflows(Columns, result, source)
  }

  /** `b` has no edge beyond the last i16 coordinate that lies before the same edge of `a`. */
  predicate EdgeClear(a: RegionRect, b: RegionRect) {
    a.IsEmpty() || b.IsEmpty()
    || (!(I16_MAX < b.Bottom() < a.Bottom()) && !(I16_MAX < b.Right() < a.Right()))
  }

  /** What a caller can look at before the call: no cut ends beyond the i16 range inside a piece. */
  ghost predicate EdgesClear(pieces: seq<RegionRect>, cuts: seq<RegionRect>) {
    forall p, c :: p in pieces && c in cuts ==> EdgeClear(p, c)
  }

  // ----- Pixels of the pieces -----

  lemma CoversCons(r: RegionRect, rest: seq<RegionRect>, px: int, py: int)
    ensures Covers([r] + rest, px, py) <==> r.Has(px, py) || Covers(rest, px, py)
  {
    CoversConcat([r], rest, px, py);
    CoversOne(r, px, py);
  }

  lemma {:induction false} SubtractEachPixels(pieces: seq<RegionRect>, cut: RegionRect, px: int, py: int)
    requires Visible(px, py) || EachFits(pieces, cut)
    ensures Covers(SubtractEach(pieces, cut), px, py) <==> Covers(pieces, px, py) && !cut.Has(px, py)
    decreases |pieces|
  {
    hide SubtractRect, Covers;
    if pieces == [] {
      NothingCovered(px, py);
    } else {
      assert pieces == [pieces[0]] + pieces[1..];
      if !Visible(px, py) {
        FitsInEach(pieces, cut);
      }
      SubtractRectPixels(pieces[0], cut, px, py);
      SubtractEachPixels(pieces[1..], cut, px, py);
      CoversConcat(SubtractRect(pieces[0], cut), SubtractEach(pieces[1..], cut), px, py);
      CoversCons(pieces[0], pieces[1..], px, py);
    }
  }

  lemma FitsInEach(pieces: seq<RegionRect>, cut: RegionRect)
    requires pieces != [] && EachFits(pieces, cut)
    ensures !SplitOverflows(pieces[0], cut) && EachFits(pieces[1..], cut)
  {
    assert pieces[0] in pieces;
    forall p | p in pieces[1..] ensures !StripOverflows(Rows, p, cut) && !StripOverflows(Columns, p, cut) {
      assert p in pieces;
    }
  }

  lemma NothingCovered(px: int, py: int)
    ensures !Covers([], px, py)
  {
  }

  lemma {:induction false} DifferencePixels(pieces: seq<RegionRect>, cuts: seq<RegionRect>, px: int, py: int)
    requires Visible(px, py) || CutsFit(pieces, cuts)
    ensures Covers(DifferencePieces(pieces, cuts), px, py) <==> Covers(pieces, px, py) && !Covers(cuts, px, py)
    decreases |cuts|
  {
    hide SubtractEach, Covers, SomeOverflows;
    if cuts == [] {
      NothingCovered(px, py);
    } else {
      SubtractEachPixels(pieces, cuts[0], px, py);
      DifferencePixels(SubtractEach(pieces, cuts[0]), cuts[1..], px, py);
      assert cuts == [cuts[0]] + cuts[1..];
      CoversCons(cuts[0], cuts[1..], px, py);
    }
  }

  lemma {:induction false} UnionPixels(result: seq<RegionRect>, source: seq<RegionRect>, px: int, py: int)
    requires Visible(px, py) || UnionFits(result, source)
    ensures Covers(UnionPieces(result, source), px, py) <==> Covers(result, px, py) || Covers(source, px, py)
    decreases |source|
  {
    hide DifferencePieces, Covers, CutOverflows;
    if source == [] {
      NothingCovered(px, py);
    } else {
      var pieces := DifferencePieces([source[0]], result);
      DifferencePixels([source[0]], result, px, py);
      UnionPixels(result + pieces, source[1..], px, py);
      CoversConcat(result, pieces, px, py);
      assert source == [source[0]] + source[1..];
      CoversCons(source[0], source[1..], px, py);
      CoversOne(source[0], px, py);
    }
  }

  // ----- Which operands are safe -----

  /** A split that does not overflow adds no edge beyond the i16 range. */
  lemma SplitEdges(a: RegionRect, b: RegionRect, q: RegionRect)
    requires EdgeClear(a, b) && q in SubtractRect(a, b)
    ensures !SplitOverflows(a, b)
    ensures q == a || !a.IsEmpty()
    ensures q.Bottom() <= I16_MAX || q.Bottom() == a.Bottom()
    ensures q.Right() <= I16_MAX || q.Right() == a.Right()
  {
    IntersectRectPixels(a, b, 0, 0);
    if IntersectRect(a, b).Some? {
      var i := IntersectRect(a, b).value;
      hide IntersectRect;
      StripEdges(a, i, q);
    }
  }

  lemma StripEdges(a: RegionRect, i: RegionRect, q: RegionRect)
    requires a.x <= i.x && a.y <= i.y && i.Right() <= a.Right() && i.Bottom() <= a.Bottom()
    requires !(I16_MAX < i.Bottom() < a.Bottom()) && !(I16_MAX < i.Right() < a.Right())
    requires q in AboveStrip(a, i) + BelowStrip(a, i) + LeftStrip(a, i) + RightStrip(a, i)
    ensures q.Bottom() <= I16_MAX || q.Bottom() == a.Bottom()
    ensures q.Right() <= I16_MAX || q.Right() == a.Right()
  {
  }

  lemma ClearDoesNotOverflow(a: RegionRect, b: RegionRect)
    requires EdgeClear(a, b)
    ensures !SplitOverflows(a, b)
  {
    IntersectRectPixels(a, b, 0, 0);
  }

  /** Cutting keeps the remaining cuts clear, and other rectangles clear of the pieces. */
  lemma {:induction false} EachStaysClear(pieces: seq<RegionRect>, cut: RegionRect, c: RegionRect)
    requires forall p :: p in pieces ==> EdgeClear(p, cut)
    ensures (forall p :: p in pieces ==> EdgeClear(p, c)) ==> forall q :: q in SubtractEach(pieces, cut) ==> EdgeClear(q, c)
    ensures (forall p :: p in pieces ==> EdgeClear(c, p)) ==> forall q :: q in SubtractEach(pieces, cut) ==> EdgeClear(c, q)
    decreases |pieces|
  {
    if pieces == [] {
    } else {
      assert pieces[0] in pieces;
      EachStaysClear(pieces[1..], cut, c);
      forall q | q in SubtractRect(pieces[0], cut)
        ensures EdgeClear(pieces[0], c) ==> EdgeClear(q, c)
        ensures EdgeClear(c, pieces[0]) ==> EdgeClear(c, q)
      {
        SplitEdges(pieces[0], cut, q);
      }
    }
  }

  lemma {:induction false} ClearCuts(pieces: seq<RegionRect>, cuts: seq<RegionRect>)
    requires EdgesClear(pieces, cuts)
    ensures CutsFit(pieces, cuts)
    decreases |cuts|
  {
    hide SubtractEach, StripOverflows;
    if cuts == [] {
    } else {
      assert cuts[0] in cuts;
      forall p | p in pieces ensures !StripOverflows(Rows, p, cuts[0]) && !StripOverflows(Columns, p, cuts[0]) {
        ClearDoesNotOverflow(p, cuts[0]);
      }
      forall p, c | p in SubtractEach(pieces, cuts[0]) && c in cuts[1..] ensures EdgeClear(p, c) {
        EachStaysClear(pieces, cuts[0], c);
      }
      ClearCuts(SubtractEach(pieces, cuts[0]), cuts[1..]);
    }
  }

  lemma {:induction false} DifferenceStaysClear(pieces: seq<RegionRect>, cuts: seq<RegionRect>, c: RegionRect)
    requires EdgesClear(pieces, cuts)
    requires forall p :: p in pieces ==> EdgeClear(c, p)
    ensures forall q :: q in DifferencePieces(pieces, cuts) ==> EdgeClear(c, q)
    decreases |cuts|
  {
    hide SubtractEach;
    if cuts == [] {
    } else {
      assert cuts[0] in cuts;
      EachStaysClear(pieces, cuts[0], c);
      forall p, d | p in SubtractEach(pieces, cuts[0]) && d in cuts[1..] ensures EdgeClear(p, d) {
        EachStaysClear(pieces, cuts[0], d);
      }
      DifferenceStaysClear(SubtractEach(pieces, cuts[0]), cuts[1..], c);
    }
  }

  lemma {:induction false} ClearUnion(result: seq<RegionRect>, source: seq<RegionRect>)
    requires EdgesClear(source, result + source)
    ensures UnionFits(result, source)
    decreases |source|
  {
    hide DifferencePieces, CutOverflows;
    if source == [] {
    } else {
      var s, rest := source[0], source[1..];
      var pieces := DifferencePieces([s], result);
      assert s in source && s in result + source;
      assert EdgesClear([s], result) by {
        forall c | c in result ensures EdgeClear(s, c) {
          assert c in result + source;
        }
      }
      ClearCuts([s], result);
      forall r, c | r in rest && c in result + pieces + rest ensures EdgeClear(r, c) {
        assert r in source;
        if c in pieces {
          DifferenceStaysClear([s], result, r);
        } else {
          assert c in result + source;
        }
      }
      ClearUnion(result + pieces, rest);
    }
  }

  /** Operands in range are clear of each other. */
  lemma InRangeClear(pieces: seq<RegionRect>, cuts: seq<RegionRect>)
    requires InRange(pieces) || InRange(cuts)
    ensures EdgesClear(pieces, cuts)
  {
  }

  lemma {:induction false} DifferenceInRange(pieces: seq<RegionRect>, cuts: seq<RegionRect>)
    requires InRange(pieces)
    ensures InRange(DifferencePieces(pieces, cuts))
    decreases |cuts|
  {
    if cuts == [] {
    } else {
      EachInRange(pieces, cuts[0]);
      DifferenceInRange(SubtractEach(pieces, cuts[0]), cuts[1..]);
    }
  }

  lemma {:induction false} EachInRange(pieces: seq<RegionRect>, cut: RegionRect)
    requires InRange(pieces)
    ensures InRange(SubtractEach(pieces, cut))
    decreases |pieces|
  {
    hide SubtractRect;
    if pieces == [] {
    } else {
      assert pieces[0] in pieces;
      SubtractRectInRange(pieces[0], cut);
      EachInRange(pieces[1..], cut);
      InRangeConcat(SubtractRect(pieces[0], cut), SubtractEach(pieces[1..], cut));
    }
  }

  lemma {:induction false} UnionInRange(result: seq<RegionRect>, source: seq<RegionRect>)
    requires InRange(result) && InRange(source)
    ensures InRange(UnionPieces(result, source))
    decreases |source|
  {
    hide DifferencePieces;
    if source == [] {
    } else {
      assert source[0] in source;
      DifferenceInRange([source[0]], result);
      InRangeConcat(result, DifferencePieces([source[0]], result));
      UnionInRange(result + DifferencePieces([source[0]], result), source[1..]);
    }
  }

  // ----- A union never invents a pixel -----

  /** Misplaced or not, the strips of a rectangle lie inside it. */
  lemma SplitInside(a: RegionRect, b: RegionRect, px: int, py: int)
    requires Covers(SubtractRect(a, b), px, py)
    ensures a.Has(px, py)
  {
    IntersectRectPixels(a, b, px, py);
  }

  lemma {:induction false} EachInside(pieces: seq<RegionRect>, cut: RegionRect, px: int, py: int)
    requires Covers(SubtractEach(pieces, cut), px, py)
    ensures Covers(pieces, px, py)
    decreases |pieces|
  {
    hide SubtractRect, Covers;
    if pieces == [] {
      NothingCovered(px, py);
    } else {
      assert pieces == [pieces[0]] + pieces[1..];
      CoversConcat(SubtractRect(pieces[0], cut), SubtractEach(pieces[1..], cut), px, py);
      CoversCons(pieces[0], pieces[1..], px, py);
      if Covers(SubtractRect(pieces[0], cut), px, py) {
        SplitInside(pieces[0], cut, px, py);
      } else {
        EachInside(pieces[1..], cut, px, py);
      }
    }
  }

  lemma {:induction false} DifferenceInside(pieces: seq<RegionRect>, cuts: seq<RegionRect>, px: int, py: int)
    requires Covers(DifferencePieces(pieces, cuts), px, py)
    ensures Covers(pieces, px, py)
    decreases |cuts|
  {
    hide SubtractEach, Covers;
    if cuts == [] {
    } else {
      DifferenceInside(SubtractEach(pieces, cuts[0]), cuts[1..], px, py);
      EachInside(pieces, cuts[0], px, py);
    }
  }

  lemma {:induction false} UnionInside(result: seq<RegionRect>, source: seq<RegionRect>, px: int, py: int)
    requires Covers(UnionPieces(result, source), px, py)
    ensures Covers(result, px, py) || Covers(source, px, py)
    decreases |source|
  {
    hide DifferencePieces, Covers;
    if source == [] {
      NothingCovered(px, py);
    } else {
      var pieces := DifferencePieces([source[0]], result);
      assert source == [source[0]] + source[1..];
      CoversCons(source[0], source[1..], px, py);
      CoversConcat(result, pieces, px, py);
      CoversOne(source[0], px, py);
      UnionInside(result + pieces, source[1..], px, py);
      if Covers(pieces, px, py) {
        DifferenceInside([source[0]], result, px, py);
      }
    }
  }

  // ----- A row overflow of a union always shows -----

  /** A piece and a cut between which a strip below overflows. */
  lemma {:induction false} RowOverflowWitness(pieces: seq<RegionRect>, cuts: seq<RegionRect>)
    returns (c: RegionRect, px: int, py: int)
    requires CutOverflows(Rows, pieces, cuts)
    ensures c in cuts && !c.IsEmpty() && I16_MAX < c.Bottom() <= py && Covers(pieces, px, py)
    decreases |cuts|
  {
    hide SubtractEach;
    c := cuts[0];
    if SomeOverflows(Rows, pieces, c) {
      var p :| p in pieces && StripOverflows(Rows, p, c);
      IntersectRectPixels(p, c, 0, 0);
      px, py := p.x as int, p.Bottom() - 1;
      assert p.Has(px, py);
    } else {
      c, px, py := RowOverflowWitness(SubtractEach(pieces, cuts[0]), cuts[1..]);
      EachInside(pieces, cuts[0], px, py);
    }
  }

  lemma {:induction false} UnionKeepsResult(result: seq<RegionRect>, source: seq<RegionRect>, r: RegionRect)
    requires r in result
    ensures r in UnionPieces(result, source)
    decreases |source|
  {
    hide DifferencePieces;
    if source == [] {
    } else {
      UnionKeepsResult(result + DifferencePieces([source[0]], result), source[1..], r);
    }
  }

  /** Rows cut off below a rectangle that ends beyond the i16 range are gone for good, or else they come
      back with a second bottom edge beyond the range. */
  lemma {:induction false} RowOverflowLoses(result: seq<RegionRect>, source: seq<RegionRect>) returns (px: int, py: int)
    requires UnionOverflows(Rows, result, source) && RowsFit(UnionPieces(result, source))
    ensures Covers(source, px, py) && !Covers(UnionPieces(result, source), px, py)
    decreases |source|
  {
    hide DifferencePieces, CutOverflows;
    var pieces := DifferencePieces([source[0]], result);
    var raw := UnionPieces(result, source);
    assert source == [source[0]] + source[1..];
    if CutOverflows(Rows, [source[0]], result) {
      var c;
      c, px, py := RowOverflowWitness([source[0]], result);
      UnionKeepsResult(result, source, c);
      CoversOne(source[0], px, py);
      forall q | q in raw ensures !q.Has(px, py) {
        assert q.Has(px, py) ==> !q.IsEmpty() && q.Bottom() > c.Bottom();
      }
    } else {
      px, py := RowOverflowLoses(result + pieces, source[1..]);
    }
    CoversCons(source[0], source[1..], px, py);
  }

  // ----- The whole operations -----

  ghost predicate IsUnion(out: seq<RegionRect>, a: seq<RegionRect>, b: seq<RegionRect>) {
    forall px, py :: Covers(out, px, py) <==> Covers(a, px, py) || Covers(b, px, py)
  }

  ghost predicate IsDifference(out: seq<RegionRect>, a: seq<RegionRect>, b: seq<RegionRect>) {
    forall px, py :: Covers(out, px, py) <==> Covers(a, px, py) && !Covers(b, px, py)
  }

  /** Union is right about every pixel left of and above 32767. On all pixels, whatever the operands, it is
      right exactly when the pieces survive normalisation and cover the union already; and they do cover it,
      if no strip to the right overflows, exactly when no strip below does. */
  lemma UnionExactIff(current: seq<RegionRect>, source: seq<RegionRect>)
    ensures var raw := UnionPieces(current, source); var out := Normalized(raw);
            && (forall px, py :: Visible(px, py) ==>
                  (Covers(out, px, py) <==> Covers(current, px, py) || Covers(source, px, py)))
            && (IsUnion(out, current, source)
                <==> RowsFit(raw) && ColumnsFit(raw) && IsUnion(raw, current, source))
            && (!UnionOverflows(Columns, current, source) ==>
                  (IsUnion(out, current, source)
                   <==> RowsFit(raw) && ColumnsFit(raw) && !UnionOverflows(Rows, current, source)))
            && (InRange(current) && InRange(source) ==> NormalForm(out) && IsUnion(out, current, source))
  {
    hide UnionPieces, UnionOverflows, Covers, Normalized, RowsFit, ColumnsFit, NormalForm, InRange;
    var raw := UnionPieces(current, source);
    var out := Normalized(raw);
    NormalizedSound(raw);
    forall px, py | Visible(px, py) { UnionPixels(current, source, px, py); }
    if RowsFit(raw) && ColumnsFit(raw) {
      NormalizedKeepsPixelsIff(raw);
      UnionCovered(current, source);
    } else {
      var px, py := NormalizedLoses(raw);
      UnionInside(current, source, px, py);
    }
    if InRange(current) && InRange(source) {
      UnionInRange(current, source);
      InRangeConcat(current, source);
      InRangeClear(source, current + source);
      ClearUnion(current, source);
      forall px, py { UnionPixels(current, source, px, py); }
    }
  }

  lemma UnionCovered(current: seq<RegionRect>, source: seq<RegionRect>)
    requires RowsFit(UnionPieces(current, source))
    ensures !UnionOverflows(Columns, current, source) ==>
              (IsUnion(UnionPieces(current, source), current, source) <==> !UnionOverflows(Rows, current, source))
  {
    hide UnionPieces, UnionOverflows, Covers, RowsFit;
    if UnionOverflows(Rows, current, source) {
      var px, py := RowOverflowLoses(current, source);
    } else if !UnionOverflows(Columns, current, source) {
      forall px, py { UnionPixels(current, source, px, py); }
    }
  }

  // ----- Operands beyond the range -----

  /** What is left of a column, in the wrong place. */
  function Misplaced(h: Card16, k: Card16): RegionRect
    requires k <= h
  {
    RegionRect(0, I16_MAX, 1, h - k)
  }

  lemma CutFromColumn(h: Card16, k: Card16)
    requires I16_MAX < k < h
    ensures SubtractEach([Column(h)], Column(k)) == [Misplaced(h, k)]
    ensures DifferencePieces([Column(h)], [Column(k)]) == [Misplaced(h, k)]
  {
    ClampsCanBite(h, k);
    SubtractOne(Column(h), Column(k));
  }

  lemma SubtractOne(a: RegionRect, b: RegionRect)
    ensures SubtractEach([a], b) == SubtractRect(a, b)
    ensures DifferencePieces([a], [b]) == SubtractRect(a, b)
  {
    hide SubtractRect;
    assert [a][1..] == [] && [b][1..] == [];
    assert SubtractRect(a, b) + [] == SubtractRect(a, b);
  }

  lemma ThinFits(rects: seq<RegionRect>)
    requires forall r :: r in rects ==> r.x == 0 && r.width == 1
    ensures ColumnsFit(rects)
  {
    forall px, py ensures !WideRun(rects, px, py) {
      assert !Covers(rects, px, py) || !Covers(rects, px + 1, py);
    }
  }

  /** Subtracting one such list from the other invents a pixel of the source and loses one of the rest. */
  lemma DifferenceCanLose(h: Card16, k: Card16)
    requires I16_MAX < k < h
    ensures var out := Normalized(DifferencePieces([Column(h)], [Column(k)]));
            && Covers(out, 0, I16_MAX) && Covers([Column(k)], 0, I16_MAX)
            && !Covers(out, 0, h - 1) && Covers([Column(h)], 0, h - 1) && !Covers([Column(k)], 0, h - 1)
  {
    var left := [Misplaced(h, k)];
    CutFromColumn(h, k);
    ThinFits(left);
    hide Normalized, DifferencePieces, Covers;
    NormalizedKeepsPixelsIff(left);
    CoversOne(left[0], 0, I16_MAX);
    CoversOne(left[0], 0, h - 1);
    CoversOne(Column(k), 0, I16_MAX);
    CoversOne(Column(k), 0, h - 1);
    CoversOne(Column(h), 0, h - 1);
  }

  /** Their union is wrong, too: the rows below `k` do not come out, or two bottom edges lie beyond the range. */
  lemma UnionCanLose(h: Card16, k: Card16)
    requires I16_MAX < k < h
    ensures !IsUnion(Normalized(UnionPieces([Column(k)], [Column(h)])), [Column(k)], [Column(h)])
  {
    var raw := [Column(k), Misplaced(h, k)];
    CutFromColumn(h, k);
    UnionOne(Column(k), Column(h));
    assert raw == [Column(k)] + [Misplaced(h, k)];
    hide Normalized, DifferencePieces, UnionPieces, UnionOverflows;
    UnionExactIff([Column(k)], [Column(h)]);
    assert !Covers(raw, 0, h - 1) by {
      CoversCons(Column(k), [Misplaced(h, k)], 0, h - 1);
      CoversOne(Misplaced(h, k), 0, h - 1);
    }
    CoversOne(Column(h), 0, h - 1);
  }

  lemma UnionOne(a: RegionRect, b: RegionRect)
    ensures UnionPieces([a], [b]) == [a] + DifferencePieces([b], [a])
  {
    hide DifferencePieces;
    assert [b][1..] == [];
  }

  lemma AllTakenAway(h: Card16, k: Card16)
    requires I16_MAX < k < h
    ensures CutOverflows(Rows, [Column(h)], [Column(k), Column(h)])
    ensures DifferencePieces([Column(h)], [Column(k), Column(h)]) == []
  {
    CutFromColumn(h, k);
    ClampsCanBite(h, k);
    MisplacedInside(h, k);
    SubtractOne(Misplaced(h, k), Column(h));
    hide SubtractRect, StripOverflows, SubtractEach;
    assert [Column(k), Column(h)][1..] == [Column(h)];
    assert Column(h) in [Column(h)];
    assert SomeOverflows(Rows, [Column(h)], Column(k));
  }

  /** An overflow of a subtraction need not show: a later cut may take the misplaced strip away. */
  lemma OverflowCanHide(h: Card16, k: Card16)
    requires I16_MAX < k < h
    ensures CutOverflows(Rows, [Column(h)], [Column(k), Column(h)])
    ensures IsDifference(Normalized(DifferencePieces([Column(h)], [Column(k), Column(h)])), [Column(h)], [Column(k), Column(h)])
  {
    AllTakenAway(h, k);
    hide Normalized, DifferencePieces, CutOverflows, Covers;
    forall px, py
      ensures Covers([Column(h)], px, py) ==> Covers([Column(k), Column(h)], px, py)
      ensures !Covers(Normalized([]), px, py)
    {
      assert [Column(k), Column(h)] == [Column(k)] + [Column(h)];
      CoversCons(Column(k), [Column(h)], px, py);
      EmptyStaysEmpty(px, py);
    }
  }

  lemma EmptyStaysEmpty(px: int, py: int)
    ensures !Covers(Normalized([]), px, py)
  {
    InRangeFits([]);
    NormalizedKeepsPixelsIff([]);
    hide Normalized;
    NothingCovered(px, py);
  }

  lemma MisplacedInside(h: Card16, k: Card16)
    requires I16_MAX < k < h
    ensures SubtractRect(Misplaced(h, k), Column(h)) == []
  {
    var m := Misplaced(h, k);
    assert IntersectRect(m, Column(h)) == Some(m);
  }
}
