/** Window properties: changing them, and reading them in pieces. */
module Properties {
  import opened Ints
  import opened Wrappers
  import opened Sequences

  type Atom = Card32

  const MAX_PROPERTY_BYTES: nat := 64 * 1024 * 1024

  /** The type a reader names to get the property whatever its type is. */
  const ANY_TYPE: Atom := 0

  datatype Format = F8 | F16 | F32 {
    function Bytes(): (n: nat)
      ensures 0 < n <= 4
    {
      match this
      case F8 => 1
      case F16 => 2
      case F32 => 4
    }

    /** What `n` bytes have beyond whole units. */
    function Excess(n: nat): (e: nat)
      ensures e < Bytes() && e <= n
    {
      match this
      case F8 => 0
      case F16 => n % 2
      case F32 => n % 4
    }

    function ProtocolValue(): (n: nat)
      ensures n == 8 * Bytes()
    {
      match this
      case F8 => 8
      case F16 => 16
      case F32 => 32
    }
  }

  datatype Mode = Replace | Prepend | Append

  datatype PropertyError = BadValue | BadMatch | BadAlloc

  datatype Property = Property(ptype: Atom, format: Format, data: seq<Byte>) {
    predicate Aligned() {
      format.Excess(|data|) == 0
    }
  }

  /** A prepend or append to a property of another type or format. */
  predicate Mismatch(existing: Option<Property>, mode: Mode, newType: Atom, format: Format) {
    mode != Replace && existing.Some? && (existing.value.ptype != newType || existing.value.format != format)
  }

  function ApplyChange(existing: Option<Property>, mode: Mode, newType: Atom, format: Format, data: seq<Byte>)
    : (r: Result<Property, PropertyError>)
    ensures r == Err(BadMatch) <==> Mismatch(existing, mode, newType, format)
    ensures r == Err(BadAlloc) <==>
      !Mismatch(existing, mode, newType, format)
      && (if mode == Replace then 0 else |DataOf(existing)|) + |data| > MAX_PROPERTY_BYTES
    ensures r.Err? ==> r.error != BadValue
    ensures r.Ok? ==> r.value.ptype == newType && r.value.format == format
    ensures r.Ok? ==> r.value.data == match mode case Replace => data
                                                 case Prepend => data + DataOf(existing)
                                                 case Append => DataOf(existing) + data
  {
    if mode == Replace || existing.None? then WithinCap(Property(newType, format, data))
    else
      var v := existing.value;
      if v.ptype != newType || v.format != format then Err(BadMatch)
      else if mode == Prepend then WithinCap(Property(newType, format, data + v.data))
      else WithinCap(Property(newType, format, v.data + data))
  }

  function WithinCap(p: Property): Result<Property, PropertyError> {
    if |p.data| > MAX_PROPERTY_BYTES then Err(BadAlloc) else Ok(p)
  }

  /** A property holds whole units if everything written to it does. */
  lemma ChangeKeepsAlignment(existing: Option<Property>, mode: Mode, newType: Atom, format: Format, data: seq<Byte>)
    requires existing.Some? ==> existing.value.Aligned()
    requires format.Excess(|data|) == 0
    ensures var r := ApplyChange(existing, mode, newType, format, data);
            r.Ok? ==> r.value.Aligned()
  {
    if existing.Some? {
      var v := existing.value;
      if v.format == format {
        ExcessAdds(format, |v.data|, |data|);
      }
    }
  }

  // ----- Building a property up -----

  datatype Piece = Piece(mode: Mode, data: seq<Byte>)

  /** Prepends and appends of one type and format; the first failure ends the run. */
  function Grow(existing: Option<Property>, t: Atom, f: Format, pieces: seq<Piece>)
    : Result<Option<Property>, PropertyError>
    decreases |pieces|
  {
    if pieces == [] then Ok(existing)
    else
      var r := ApplyChange(existing, pieces[0].mode, t, f, pieces[0].data);
      if r.Err? then Err(r.error) else Grow(Some(r.value), t, f, pieces[1..])
  }

  function DataOf(p: Option<Property>): seq<Byte> {
    if p.Some? then p.value.data else []
  }

  function Appended(pieces: seq<Piece>): seq<Byte> {
    if pieces == [] then []
    else (if pieces[0].mode == Append then pieces[0].data else []) + Appended(pieces[1..])
  }

  /** The latest prepend comes first. */
  function Prepended(pieces: seq<Piece>): seq<Byte> {
    if pieces == [] then []
    else Prepended(pieces[1..]) + (if pieces[0].mode == Prepend then pieces[0].data else [])
  }

  lemma ChangeData(existing: Option<Property>, t: Atom, f: Format, p: Piece)
    requires existing.Some? ==> existing.value.ptype == t && existing.value.format == f
    requires p.mode != Replace
    ensures var r := ApplyChange(existing, p.mode, t, f, p.data);
            && (r.Ok? <==> |p.data| + |DataOf(existing)| <= MAX_PROPERTY_BYTES)
            && (r.Ok? ==> r.value == Property(t, f, Prepended([p]) + DataOf(existing) + Appended([p])))
  {
    assert [p][1..] == [];
  }

  lemma Regroup(a: seq<Byte>, b: seq<Byte>, c: seq<Byte>, d: seq<Byte>, e: seq<Byte>)
    ensures (a + b) + c + (d + e) == a + (b + c + d) + e
  {
  }

  lemma PieceFirst(p: Piece, rest: seq<Piece>)
    ensures Prepended([p] + rest) == Prepended(rest) + Prepended([p])
    ensures Appended([p] + rest) == Appended([p]) + Appended(rest)
    ensures |Prepended([p])| + |Appended([p])| == if p.mode == Replace then 0 else |p.data|
  {
    assert ([p] + rest)[1..] == rest && [p][1..] == [];
  }

  /** However prepends and appends are mixed: they all succeed exactly when the whole fits the cap, and
      then the property is the prepends in reverse, what was there, and the appends in order. */
  lemma {:induction false} GrowBuilds(existing: Option<Property>, t: Atom, f: Format, pieces: seq<Piece>)
    requires existing.Some? ==> existing.value.ptype == t && existing.value.format == f
    requires |DataOf(existing)| <= MAX_PROPERTY_BYTES
    requires forall p :: p in pieces ==> p.mode != Replace
    ensures var whole := Prepended(pieces) + DataOf(existing) + Appended(pieces);
            && (Grow(existing, t, f, pieces).Ok? <==> |whole| <= MAX_PROPERTY_BYTES)
            && (Grow(existing, t, f, pieces).Ok? && pieces != [] ==>
                  Grow(existing, t, f, pieces).value == Some(Property(t, f, whole)))
    decreases |pieces|
  {
    hide ApplyChange;
    if pieces == [] {
      assert Prepended(pieces) + DataOf(existing) + Appended(pieces) == DataOf(existing);
    } else {
      var p, rest := pieces[0], pieces[1..];
      assert p in pieces && [p] + rest == pieces;
      ChangeData(existing, t, f, p);
      PieceFirst(p, rest);
      hide Prepended, Appended;
      Regroup(Prepended(rest), Prepended([p]), DataOf(existing), Appended([p]), Appended(rest));
      var r := ApplyChange(existing, p.mode, t, f, p.data);
      if r.Ok? {
        GrowBuilds(Some(r.value), t, f, rest);
        if rest == [] {
          NoPieces(r.value.data);
        }
      }
    }
  }

  lemma NoPieces(d: seq<Byte>)
    ensures Prepended([]) + d + Appended([]) == d
  {
  }

  // ----- Reading -----

  datatype Slice = Slice(ptype: Atom, format: nat, bytesAfter: Card32, value: seq<Byte>)

  function Truncate32(n: nat): Card32 {
    n % 0x1_0000_0000
  }

  function SliceForGet(property: Option<Property>, requested: Atom, longOffset: Card32, longLength: Card32)
    : (r: Result<Slice, PropertyError>)
    ensures r.Err? <==>
      property.Some? && (requested == ANY_TYPE || requested == property.value.ptype)
      && 4 * longOffset > |property.value.data|
    ensures r.Err? ==> r.error == BadValue
  {
    if property.None? then Ok(Slice(0, 0, 0, []))
    else
      var p := property.value;
      var total := |p.data|;
      if requested != ANY_TYPE && requested != p.ptype then
        Ok(Slice(p.ptype, p.format.ProtocolValue(), Truncate32(total), []))
      else
        var offset: nat := 4 * longOffset as int;
        if offset > total then Err(BadValue)
        else
          var remaining := total - offset;
          var wanted: nat := Min(remaining, 4 * longLength as int);
          var n := wanted - p.format.Excess(wanted);
          Ok(Slice(p.ptype, p.format.ProtocolValue(), Truncate32(remaining - n), p.data[offset..offset + n]))
  }

  /** Every read: nothing of a property that is not there, the metadata alone for another type than asked
      for, an error exactly for an offset behind the data, and otherwise bytes from the offset on. */
  lemma SliceCases(property: Option<Property>, requested: Atom, longOffset: Card32, longLength: Card32)
    ensures property.None? ==> SliceForGet(property, requested, longOffset, longLength) == Ok(Slice(0, 0, 0, []))
    ensures property.Some? ==>
              var p, r := property.value, SliceForGet(property, requested, longOffset, longLength);
              if requested != ANY_TYPE && requested != p.ptype then
                r == Ok(Slice(p.ptype, p.format.ProtocolValue(), Truncate32(|p.data|), []))
              else if 4 * longOffset > |p.data| then r == Err(BadValue)
              else r.Ok? && r.value.ptype == p.ptype && r.value.format == p.format.ProtocolValue()
                   && r.value.value <= p.data[4 * longOffset..]
                   && r.value.bytesAfter == Truncate32(|p.data| - 4 * longOffset - |r.value.value|)
  {
    hide Format.Excess, Truncate32;
  }

  /** A good read returns the bytes from the offset on, as many whole units as were asked for and are
      there, and counts the rest. */
  lemma SliceIsWindow(p: Property, requested: Atom, longOffset: Card32, longLength: Card32)
    requires requested == ANY_TYPE || requested == p.ptype
    requires |p.data| <= MAX_PROPERTY_BYTES && 4 * longOffset <= |p.data|
    ensures var r := SliceForGet(Some(p), requested, longOffset, longLength);
            var rest := p.data[4 * longOffset..];
            && r.Ok? && r.value.ptype == p.ptype && r.value.format == p.format.ProtocolValue()
            && r.value.value <= rest
            && r.value.bytesAfter as int == |rest| - |r.value.value|
            && p.format.Excess(|r.value.value|) == 0
            && |r.value.value| <= 4 * longLength
            && (|rest| < |r.value.value| + p.format.Bytes() || 4 * longLength == |r.value.value|)
  {
    hide Format.Excess;
    var wanted := Min(|p.data| - 4 * longOffset as int, 4 * longLength as int);
    WholeUnits(p.format, wanted, longLength);
  }

  lemma Halves(n: nat, m: nat)
    ensures (n - n % 2) % 2 == 0 && (4 * n) % 2 == 0
    ensures (n + m) % 2 == 0 <==> n % 2 == m % 2
  {
  }

  lemma Quarters(n: nat, m: nat)
    ensures (n - n % 4) % 4 == 0 && (4 * n) % 4 == 0
    ensures n % 4 == 0 ==> ((n + m) % 4 == 0 <==> m % 4 == 0)
  {
  }

  lemma WholeUnits(f: Format, wanted: nat, longLength: Card32)
    ensures f.Excess(wanted - f.Excess(wanted)) == 0
    ensures wanted == 4 * longLength ==> f.Excess(wanted) == 0
  {
    Halves(wanted, 0);
    Quarters(wanted, 0);
    Halves(longLength, 0);
    Quarters(longLength, 0);
  }

  lemma ExcessIsRemainder(f: Format, n: nat)
    ensures f.Excess(n) == n % f.Bytes()
  {
  }

  /** A reply never ends in part of a unit. */
  lemma RepliesAreWholeUnits(p: Property, requested: Atom, longOffset: Card32, longLength: Card32)
    requires requested == ANY_TYPE || requested == p.ptype
    requires |p.data| <= MAX_PROPERTY_BYTES && 4 * longOffset <= |p.data|
    ensures |SliceForGet(Some(p), requested, longOffset, longLength).value.value| % p.format.Bytes() == 0
  {
    SliceIsWindow(p, requested, longOffset, longLength);
    hide SliceForGet;
    ExcessIsRemainder(p.format, |SliceForGet(Some(p), requested, longOffset, longLength).value.value|);
  }

  /** A client that reads `chunk` longs at a time, moving on by what it got until nothing is left;
      `patience` bounds the number of requests. */
  function ReadChunks(p: Property, requested: Atom, longOffset: Card32, chunk: Card32, patience: nat)
    : Option<seq<Byte>>
    decreases patience
  {
    if patience == 0 then None
    else
      var r := SliceForGet(Some(p), requested, longOffset, chunk);
      if r.Err? then None
      else if r.value.bytesAfter == 0 then Some(r.value.value)
      else
        var next := longOffset + |r.value.value| / 4;
        if next > 0xFFFF_FFFF then None
        else
          var rest := ReadChunks(p, requested, next, chunk, patience - 1);
          if rest.None? then None else Some(r.value.value + rest.value)
  }

  /** Whatever the chunk: a property of whole units is read back exactly, in at most
      one request more than there are longs; one that ends in part of a unit is never read to its end. */
  lemma {:induction false} ChunksReassemble(p: Property, requested: Atom, longOffset: Card32, chunk: Card32,
                                            patience: nat)
    requires requested == ANY_TYPE || requested == p.ptype
    requires |p.data| <= MAX_PROPERTY_BYTES && 4 * longOffset <= |p.data| && chunk > 0
    ensures p.Aligned() && 4 * patience > |p.data| - 4 * longOffset ==>
      ReadChunks(p, requested, longOffset, chunk, patience) == Some(p.data[4 * longOffset..])
    ensures !p.Aligned() ==> ReadChunks(p, requested, longOffset, chunk, patience) == None
    decreases patience
  {
    hide SliceForGet, Format.Excess, Property.Aligned;
    if patience == 0 {
    } else {
      var s := SliceForGet(Some(p), requested, longOffset, chunk).value;
      var n, start := |s.value|, 4 * longOffset as int;
      var rest := p.data[start..];
      SliceIsWindow(p, requested, longOffset, chunk);
      LastRead(p, longOffset, n);
      assert s.value == rest[..n] == p.data[start..start + n];
      if n == |rest| {
        assert s.bytesAfter == 0 && s.value == rest;
      } else {
        var next := longOffset + n / 4;
        ChunksReassemble(p, requested, next, chunk, patience - 1);
        if p.Aligned() {
          assert n == 4 * chunk && next == longOffset + chunk;
          SliceSplit(p.data, start, start + n);
        }
      }
    }
  }

  /** A read of whole units that leaves less than a unit leaves nothing of a property of whole units. */
  lemma LastRead(p: Property, longOffset: Card32, n: nat)
    requires 4 * longOffset as int + n <= |p.data| && p.format.Excess(n) == 0
    ensures p.Aligned() && |p.data| - 4 * longOffset < n + p.format.Bytes() ==> n == |p.data| - 4 * longOffset
    ensures !p.Aligned() ==> n < |p.data| - 4 * longOffset
  {
    var left: nat := |p.data| - 4 * longOffset - n;
    Offset(p.format, longOffset, n);
    ExcessAdds(p.format, 4 * longOffset as int + n, left);
    ExcessOfLess(p.format, left);
    hide Format.Excess, Format.Bytes;
  }

  lemma Offset(f: Format, longOffset: nat, n: nat)
    requires f.Excess(n) == 0
    ensures f.Excess(4 * longOffset + n) == 0
  {
    Halves(longOffset, 0);
    Halves(4 * longOffset, n);
    Quarters(longOffset, 0);
    Quarters(4 * longOffset, n);
  }

  lemma ExcessAdds(f: Format, a: nat, b: nat)
    requires f.Excess(a) == 0
    ensures f.Excess(a + b) == 0 <==> f.Excess(b) == 0
  {
    Halves(a, b);
    Quarters(a, b);
  }

  lemma ExcessOfLess(f: Format, n: nat)
    ensures n < f.Bytes() ==> f.Excess(n) == n
  {
  }

  /** What was appended is what is read. */
  lemma AppendsReadBack(existing: Option<Property>, t: Atom, f: Format, pieces: seq<Piece>, chunk: Card32)
    requires existing.Some? ==> existing.value.ptype == t && existing.value.format == f
    requires forall p :: p in pieces ==> p.mode == Append
    requires pieces != [] && chunk > 0
    requires var whole := DataOf(existing) + Appended(pieces);
             |whole| <= MAX_PROPERTY_BYTES && f.Excess(|whole|) == 0
    ensures var r := Grow(existing, t, f, pieces);
            && r.Ok? && r.value.Some?
            && ReadChunks(r.value.value, t, 0, chunk, MAX_PROPERTY_BYTES + 1) == Some(DataOf(existing) + Appended(pieces))
  {
    hide Grow, Appended, Prepended, ReadChunks, Format.Excess, ApplyChange, SliceForGet;
    NothingPrepended(pieces);
    GrowBuilds(existing, t, f, pieces);
    var whole := DataOf(existing) + Appended(pieces);
    assert Prepended(pieces) + DataOf(existing) + Appended(pieces) == whole;
    ChunksReassemble(Property(t, f, whole), t, 0, chunk, MAX_PROPERTY_BYTES + 1);
    assert whole[0..] == whole;
  }

  lemma {:induction false} NothingPrepended(pieces: seq<Piece>)
    requires forall p :: p in pieces ==> p.mode == Append
    ensures Prepended(pieces) == []
    decreases |pieces|
  {
    if pieces == [] {
    } else {
      assert pieces[0] in pieces;
      NothingPrepended(pieces[1..]);
    }
  }
}
