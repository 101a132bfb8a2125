/** The subtraction and union of rectangle lists as the server computes them, and what ShapeCombine does with
    them. */
module ShapeCombine {
  import opened Sequences
  import opened Regions
  import opened RegionOps
  import opened RegionLists
  import opened RegionTails

  lemma EachSound(pieces: seq<RegionRect>, cut: RegionRect)
    ensures forall px, py :: Visible(px, py) ==>
              (Covers(SubtractEach(pieces, cut), px, py) <==> Covers(pieces, px, py) && !cut.Has(px, py))
    ensures InRange(pieces) ==> InRange(SubtractEach(pieces, cut))
  {
    hide SubtractEach, InRange, Covers;
    forall px, py | Visible(px, py) { SubtractEachPixels(pieces, cut, px, py); }
    if InRange(pieces) { EachInRange(pieces, cut); }
  }

  lemma UncoveredSound(s: RegionRect, result: seq<RegionRect>)
    ensures forall px, py :: Visible(px, py) ==>
              (Covers(DifferencePieces([s], result), px, py) <==> s.Has(px, py) && !Covers(result, px, py))
    ensures InRange([s]) ==> InRange(DifferencePieces([s], result))
  {
    hide DifferencePieces, InRange, Covers;
    forall px, py | Visible(px, py)
      ensures Covers(DifferencePieces([s], result), px, py) <==> s.Has(px, py) && !Covers(result, px, py)
    {
      DifferencePixels([s], result, px, py);
      CoversOne(s, px, py);
    }
    if InRange([s]) { DifferenceInRange([s], result); }
  }

  /** Remove `cut` from every piece. */
  method SubtractFromPieces(pieces: seq<RegionRect>, cut: RegionRect) returns (next: seq<RegionRect>)
    ensures next == SubtractEach(pieces, cut)
    ensures forall px, py :: Visible(px, py) ==>
              (Covers(next, px, py) <==> Covers(pieces, px, py) && !cut.Has(px, py))
    ensures InRange(pieces) ==> InRange(next)
  {
    EachSound(pieces, cut);
    hide InRange, Covers, Visible;
    hide SubtractRect;
    next := [];
    assert pieces[0..] == pieces;
    for i := 0 to |pieces|
      invariant next + SubtractEach(pieces[i..], cut) == SubtractEach(pieces, cut)
    {
      assert pieces[i..][1..] == pieces[i + 1..];
      SeqAssoc(next, SubtractRect(pieces[i], cut), SubtractEach(pieces[i + 1..], cut));
      next := next + SubtractRect(pieces[i], cut);
    }
    assert pieces[|pieces|..] == [];
  }

  lemma DifferenceStep(pieces: seq<RegionRect>, cuts: seq<RegionRect>, i: nat)
    requires i <= |cuts|
    ensures DifferencePieces(pieces, cuts[i..])
         == if i == |cuts| then pieces else DifferencePieces(SubtractEach(pieces, cuts[i]), cuts[i + 1..])
  {
    hide SubtractEach;
    if i < |cuts| {
      assert cuts[i..][1..] == cuts[i + 1..];
    }
  }

  method SubtractRegions(current: seq<RegionRect>, source: seq<RegionRect>) returns (out: seq<RegionRect>)
    ensures out == Normalized(DifferencePieces(current, source))
    ensures forall px, py :: Visible(px, py) ==>
              (Covers(out, px, py) <==> Covers(current, px, py) && !Covers(source, px, py))
    ensures var raw := DifferencePieces(current, source);
            IsDifference(out, current, source) <==> RowsFit(raw) && ColumnsFit(raw) && IsDifference(raw, current, source)
    ensures EdgesClear(current, source) ==>
              var raw := DifferencePieces(current, source);
              (IsDifference(out, current, source) <==> RowsFit(raw) && ColumnsFit(raw))
    ensures InRange(current) ==> IsDifference(out, current, source) && NormalForm(out)
  {
    DifferenceExactIff(current, source);
    if EdgesClear(current, source) {
      ClearCuts(current, source);
    }
    hide SubtractEach, DifferencePieces, Covers, Normalized, RowsFit, ColumnsFit, NormalForm, InRange, EdgesClear,
         IsDifference, Visible;
    var result := current;
    assert source[0..] == source;
    for i := 0 to |source|
      invariant DifferencePieces(result, source[i..]) == DifferencePieces(current, source)
    {
      DifferenceStep(result, source, i);
      result := SubtractFromPieces(result, source[i]);
    }
    DifferenceStep(result, source, |source|);
    out := NormalizeRegionRects(result);
  }

  lemma {:induction false} NothingLeftToCut(cuts: seq<RegionRect>)
    ensures DifferencePieces([], cuts) == []
    decreases |cuts|
  {
    if cuts == [] {
    } else {
      NothingLeftToCut(cuts[1..]);
    }
  }

  /** The pieces of one source rectangle that the accumulated list does not cover yet. */
  method UncoveredPieces(s: RegionRect, result: seq<RegionRect>) returns (pieces: seq<RegionRect>)
    ensures pieces == DifferencePieces([s], result)
    ensures forall px, py :: Visible(px, py) ==>
              (Covers(pieces, px, py) <==> s.Has(px, py) && !Covers(result, px, py))
    ensures InRange([s]) ==> InRange(pieces)
  {
    UncoveredSound(s, result);
    hide InRange, Covers, Visible;
    hide SubtractEach, DifferencePieces;
    pieces := [s];
    assert result[0..] == result;
    for i := 0 to |result|
      invariant DifferencePieces(pieces, result[i..]) == DifferencePieces([s], result)
    {
      DifferenceStep(pieces, result, i);
      pieces := SubtractFromPieces(pieces, result[i]);
      if pieces == [] {
        NothingLeftToCut(result[i + 1..]);
        return;
      }
    }
    DifferenceStep(pieces, result, |result|);
  }

  lemma UnionStep(result: seq<RegionRect>, source: seq<RegionRect>, i: nat)
    requires i <= |source|
    ensures UnionPieces(result, source[i..])
         == if i == |source| then result
            else UnionPieces(result + DifferencePieces([source[i]], result), source[i + 1..])
  {
    hide DifferencePieces;
    if i < |source| {
      assert source[i..][1..] == source[i + 1..];
    }
  }

  method UnionRegions(current: seq<RegionRect>, source: seq<RegionRect>) returns (out: seq<RegionRect>)
    ensures out == Normalized(UnionPieces(current, source))
    ensures forall px, py :: Visible(px, py) ==>
              (Covers(out, px, py) <==> Covers(current, px, py) || Covers(source, px, py))
    ensures var raw := UnionPieces(current, source);
            IsUnion(out, current, source) <==> RowsFit(raw) && ColumnsFit(raw) && IsUnion(raw, current, source)
    ensures EdgesClear(source, current + source) ==>
              var raw := UnionPieces(current, source);
              (IsUnion(out, current, source) <==> RowsFit(raw) && ColumnsFit(raw))
    ensures InRange(current) && InRange(source) ==> IsUnion(out, current, source) && NormalForm(out)
  {
    UnionExactIff(current, source);
    if EdgesClear(source, current + source) {
      ClearUnion(current, source);
    }
    hide UnionPieces, DifferencePieces, Covers, Normalized, RowsFit, ColumnsFit, NormalForm, InRange, EdgesClear, IsUnion,
         Visible;
    var result := current;
    assert source[0..] == source;
    for i := 0 to |source|
      invariant UnionPieces(result, source[i..]) == UnionPieces(current, source)
    {
      UnionStep(result, source, i);
      var pieces := UncoveredPieces(source[i], result);
      result := result + pieces;
    }
    UnionStep(result, source, |source|);
    out := NormalizeRegionRects(result);
  }

  // ----- ShapeCombine -----

  const OP_SET: int := 0
  const OP_UNION: int := 1
  const OP_INTERSECT: int := 2
  const OP_SUBTRACT: int := 3
  const OP_INVERT: int := 4

  /** Membership of a pixel after the operation, from its membership in the operands. */
  predicate ShapeOpBit(op: int, inCurrent: bool, inSource: bool) {
    if op == OP_SET || op == OP_INVERT then inSource
    else if op == OP_UNION then inCurrent || inSource
    else if op == OP_INTERSECT then inCurrent && inSource
    else if op == OP_SUBTRACT then inCurrent && !inSource
    else inCurrent
  }

  /** The list an operation hands to normalisation. */
  ghost function ShapePieces(current: seq<RegionRect>, source: seq<RegionRect>, op: int): seq<RegionRect> {
    if op == OP_UNION then UnionPieces(current, source)
    else if op == OP_INTERSECT then IntersectPairs(current, source)
    else if op == OP_SUBTRACT then DifferencePieces(current, source)
    else source
  }

  ghost function ShapeOp(current: seq<RegionRect>, source: seq<RegionRect>, op: int): seq<RegionRect> {
    if OP_SET <= op <= OP_INVERT then Normalized(ShapePieces(current, source, op)) else current
  }

  /** No split of the operation can overflow. */
  ghost predicate ShapeClear(current: seq<RegionRect>, source: seq<RegionRect>, op: int) {
    && (op == OP_UNION ==> EdgesClear(source, current + source))
    && (op == OP_SUBTRACT ==> EdgesClear(current, source))
  }

  /** The list has the pixels that the operation asks for. */
  ghost predicate IsShape(out: seq<RegionRect>, current: seq<RegionRect>, source: seq<RegionRect>, op: int) {
    forall px, py :: Covers(out, px, py) <==> ShapeOpBit(op, Covers(current, px, py), Covers(source, px, py))
  }

  /** Every operation is right about pixels left of and above 32767; about all pixels, whatever the operands,
      exactly when the list it normalises is right and survives that. When the edges are clear, it is right. */
  lemma ShapeOpExactIff(current: seq<RegionRect>, source: seq<RegionRect>, op: int)
    ensures forall px, py :: Visible(px, py) ==>
              (Covers(ShapeOp(current, source, op), px, py)
               <==> ShapeOpBit(op, Covers(current, px, py), Covers(source, px, py)))
    ensures OP_SET <= op <= OP_INVERT ==>
              var raw := ShapePieces(current, source, op);
              (IsShape(ShapeOp(current, source, op), current, source, op)
               <==> RowsFit(raw) && ColumnsFit(raw) && IsShape(raw, current, source, op))
    ensures OP_SET <= op <= OP_INVERT && ShapeClear(current, source, op) ==>
              IsShape(ShapePieces(current, source, op), current, source, op)
    ensures InRange(current) && InRange(source) ==> IsShape(ShapeOp(current, source, op), current, source, op)
    ensures InRange(current) && InRange(source) && (OP_SET <= op <= OP_INVERT || NormalForm(current)) ==>
              NormalForm(ShapeOp(current, source, op))
  {
    hide UnionPieces, DifferencePieces, IntersectPairs, Covers, Normalized, RowsFit, ColumnsFit, NormalForm, InRange,
         EdgesClear, UnionOverflows, CutOverflows;
    if op == OP_UNION {
      UnionExactIff(current, source);
      if EdgesClear(source, current + source) {
        ClearUnion(current, source);
        forall px, py { UnionPixels(current, source, px, py); }
      }
    } else if op == OP_SUBTRACT {
      DifferenceExactIff(current, source);
      if EdgesClear(current, source) {
        ClearCuts(current, source);
        forall px, py { DifferencePixels(current, source, px, py); }
      }
    } else if op == OP_INTERSECT {
      IntersectionSound(IntersectPairs(current, source), current, source);
      forall px, py { IntersectPairsPixels(current, source, px, py); }
    } else {
      NormalizedSound(source);
      NormalizedKeepsPixelsIff(source);
    }
  }

  method ApplyShapeOp(current: seq<RegionRect>, source: seq<RegionRect>, op: int) returns (out: seq<RegionRect>)
    ensures out == ShapeOp(current, source, op)
    ensures forall px, py :: Visible(px, py) ==>
              (Covers(out, px, py) <==> ShapeOpBit(op, Covers(current, px, py), Covers(source, px, py)))
    ensures OP_SET <= op <= OP_INVERT ==>
              var raw := ShapePieces(current, source, op);
              (IsShape(out, current, source, op)
               <==> RowsFit(raw) && ColumnsFit(raw) && IsShape(raw, current, source, op))
    ensures InRange(current) && InRange(source) ==> IsShape(out, current, source, op)
    ensures InRange(current) && InRange(source) && (OP_SET <= op <= OP_INVERT || NormalForm(current)) ==> NormalForm(out)
  {
    ShapeOpExactIff(current, source, op);
    hide UnionPieces, DifferencePieces, Covers, Normalized, ShapeOpBit, InRange, NormalForm;
    match op
    case 0 => out := NormalizeRegionRects(source);
    case 1 => out := UnionRegions(current, source);
    case 2 => out := IntersectRegions(current, source);
    case 3 => out := SubtractRegions(current, source);
    case 4 => out := NormalizeRegionRects(source);
    case _ => out := current;
  }
}
