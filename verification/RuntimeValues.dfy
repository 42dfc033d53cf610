/**
 Values of the shared structures in memory. Packing gives the new contents of a buffer, where the padding
 is as it was; unpacking does not look at the padding.
 */
module RuntimeValues {
  import opened LittleEndian
  import opened RuntimeFormat
  import opened Sequences

  /** An integer or an address, or the elements of an array or the fields of a struct. */
  datatype Val = Number(n: int) | Many(vals: seq<Val>)

  predicate ValOk(ty: Ty, v: Val)
    requires TyOk(ty)
    decreases ty, 0
  {
    match ty
    case Int(bytes, signed) =>
      v.Number? && if signed then 0 <= 2 * v.n + Bound(bytes) < 2 * Bound(bytes) else 0 <= v.n < Bound(bytes)
    case Array(of, count) => v.Many? && |v.vals| == count && ElemsOk(of, v.vals)
    case Struct(fields) => v.Many? && FieldValsOk(fields, v.vals)
    case Pointer => v.Number? && 0 <= v.n < Bound(8)
    case Atomic(of) => ValOk(of, v)
  }

  predicate ElemsOk(of: Ty, vals: seq<Val>)
    requires TyOk(of)
    decreases of, 1, vals
  {
    vals != [] ==> ValOk(of, vals[0]) && ElemsOk(of, vals[1..])
  }

  predicate FieldValsOk(fields: Fields, vals: seq<Val>)
    requires FieldsOk(fields)
    decreases fields
  {
    if fields.End? then vals == []
    else vals != [] && ValOk(fields.ty, vals[0]) && FieldValsOk(fields.rest, vals[1..])
  }

  // ---------------------------------------------------------------------------------------
  // Numbers
  // ---------------------------------------------------------------------------------------

  /** Two's complement. */
  function Raw(n: int, bytes: nat): nat
    requires 0 <= n + Bound(bytes)
  {
    if n < 0 then n + Bound(bytes) else n
  }

  function Cooked(raw: nat, bytes: nat, signed: bool): int {
    if signed && 2 * raw >= Bound(bytes) then raw - Bound(bytes) else raw
  }

  function PackNumber(n: int, bytes: nat): (bs: seq<Byte>)
    requires 0 <= n + Bound(bytes)
    ensures |bs| == bytes
  {
    Little(Raw(n, bytes), bytes)
  }

  lemma NumberRoundTrip(n: int, bytes: nat, signed: bool)
    requires if signed then 0 <= 2 * n + Bound(bytes) < 2 * Bound(bytes) else 0 <= n < Bound(bytes)
    ensures Cooked(Value(PackNumber(n, bytes)), bytes, signed) == n
  {
    ValueOfLittle(Raw(n, bytes), bytes);
  }

  /** Two's complement: the number in memory is the remainder modulo 256 to the number of bytes. */
  lemma PackedIsRemainder(n: int, bytes: nat, signed: bool)
    requires if signed then 0 <= 2 * n + Bound(bytes) < 2 * Bound(bytes) else 0 <= n < Bound(bytes)
    ensures Value(PackNumber(n, bytes)) == n % Bound(bytes)
  {
    RemainderIs(n, Bound(bytes));
    ValueOfLittle(n % Bound(bytes), bytes);
  }

  lemma RemainderIs(n: int, b: nat)
    requires b > 0 && 0 <= n + b && n < b
    ensures n % b == if n < 0 then n + b else n
  {
  }

  // ---------------------------------------------------------------------------------------
  // Packing and unpacking
  // ---------------------------------------------------------------------------------------

  function SizeOf(ty: Ty): nat
    requires TyOk(ty)
  {
    LayoutOf(ty).size
  }

  /** The size of `count` elements. */
  function ElemsSize(of: Ty, count: nat): (size: nat)
    requires TyOk(of)
  {
    Times(SizeOf(of), count)
  }

  /** The padding before each field. */
  function Gaps(fields: Fields, start: nat): seq<nat>
    requires FieldsOk(fields)
  {
    if fields.End? then []
    else
      var offset := PadTo(start, LayoutOf(fields.ty).align);
      [offset - start] + Gaps(fields.rest, offset + SizeOf(fields.ty))
  }

  /** The buffer is large enough for the fields and the padding before them. */
  predicate Fits(fields: Fields, gaps: seq<nat>, size: nat)
    requires FieldsOk(fields)
  {
    fields.Field? ==>
      && gaps != [] && gaps[0] + SizeOf(fields.ty) <= size
      && Fits(fields.rest, gaps[1..], size - gaps[0] - SizeOf(fields.ty))
  }

  lemma FirstOffset(fields: Fields, pos: nat, offset: nat)
    requires FieldsOk(fields) && fields.Field? && offset == PadTo(pos, LayoutOf(fields.ty).align)
    ensures Offsets(LayoutsOf(fields), pos) == [offset] + Offsets(LayoutsOf(fields.rest), offset + SizeOf(fields.ty))
    ensures EndOf(LayoutsOf(fields), pos) == EndOf(LayoutsOf(fields.rest), offset + SizeOf(fields.ty))
    ensures Gaps(fields, pos) == [offset - pos] + Gaps(fields.rest, offset + SizeOf(fields.ty))
    ensures Gaps(fields, pos)[1..] == Gaps(fields.rest, offset + SizeOf(fields.ty))
  {
    hide PadTo, LayoutOf;
    assert LayoutsOf(fields)[1..] == LayoutsOf(fields.rest);
  }

  lemma {:induction false} GapsFit(fields: Fields, start: nat, end: nat)
    requires FieldsOk(fields) && EndOf(LayoutsOf(fields), start) <= end
    ensures Fits(fields, Gaps(fields, start), end - start)
  {
    hide PadTo, LayoutOf, Gaps, EndOf;
    if fields.Field? {
      var offset := PadTo(start, LayoutOf(fields.ty).align);
      FirstOffset(fields, start, offset);
      GapsFit(fields.rest, offset + SizeOf(fields.ty), end);
    }
  }

  /** The padding and the fields of a struct, and the padding behind them, are all of it. */
  lemma StructFits(fields: Fields)
    requires FieldsOk(fields) && fields.Field?
    ensures Fits(fields, Gaps(fields, 0), SizeOf(Struct(fields)))
  {
    GapsFit(fields, 0, SizeOf(Struct(fields)));
  }

  /** The buffer after packing; `buf` is what was there before. */
  function Packed(ty: Ty, v: Val, buf: seq<Byte>): (bs: seq<Byte>)
    requires TyOk(ty) && ValOk(ty, v) && |buf| == SizeOf(ty)
    ensures |bs| == |buf|
    decreases ty, 0
  {
    match ty
    case Int(bytes, _) => PackNumber(v.n, bytes)
    case Array(of, count) =>
      PackedElems(of, v.vals, buf)
    case Struct(fields) =>
      StructFits(fields);
      PackedFields(fields, Gaps(fields, 0), v.vals, buf)
    case Pointer => PackNumber(v.n, 8)
    case Atomic(of) => Packed(of, v, buf)
  }

  function PackedElems(of: Ty, vals: seq<Val>, buf: seq<Byte>): (bs: seq<Byte>)
    requires TyOk(of) && ElemsOk(of, vals) && |buf| == ElemsSize(of, |vals|)
    ensures |bs| == |buf|
    decreases of, 1, vals
  {
    if vals == [] then buf
    else Packed(of, vals[0], buf[..SizeOf(of)]) + PackedElems(of, vals[1..], buf[SizeOf(of)..])
  }

  function PackedFields(fields: Fields, gaps: seq<nat>, vals: seq<Val>, buf: seq<Byte>): (bs: seq<Byte>)
    requires FieldsOk(fields) && FieldValsOk(fields, vals) && Fits(fields, gaps, |buf|)
    ensures |bs| == |buf|
    decreases fields
  {
    if fields.End? then buf
    else
      var gap, end := gaps[0], gaps[0] + SizeOf(fields.ty);
      buf[..gap] + Packed(fields.ty, vals[0], buf[gap..end])
        + PackedFields(fields.rest, gaps[1..], vals[1..], buf[end..])
  }

  function Unpacked(ty: Ty, buf: seq<Byte>): Val
    requires TyOk(ty) && |buf| == SizeOf(ty)
    decreases ty, 0
  {
    match ty
    case Int(bytes, signed) => Number(Cooked(Value(buf), bytes, signed))
    case Array(of, count) =>
      Many(UnpackedElems(of, count, buf))
    case Struct(fields) =>
      StructFits(fields);
      Many(UnpackedFields(fields, Gaps(fields, 0), buf))
    case Pointer => Number(Value(buf))
    case Atomic(of) => Unpacked(of, buf)
  }

  function UnpackedElems(of: Ty, count: nat, buf: seq<Byte>): seq<Val>
    requires TyOk(of) && |buf| == ElemsSize(of, count)
    decreases of, 1, count
  {
    if count == 0 then [] else [Unpacked(of, buf[..SizeOf(of)])] + UnpackedElems(of, count - 1, buf[SizeOf(of)..])
  }

  function UnpackedFields(fields: Fields, gaps: seq<nat>, buf: seq<Byte>): seq<Val>
    requires FieldsOk(fields) && Fits(fields, gaps, |buf|)
    decreases fields
  {
    if fields.End? then []
    else
      var gap, end := gaps[0], gaps[0] + SizeOf(fields.ty);
      [Unpacked(fields.ty, buf[gap..end])] + UnpackedFields(fields.rest, gaps[1..], buf[end..])
  }

  // ---------------------------------------------------------------------------------------
  // Round trip
  // ---------------------------------------------------------------------------------------

  /** Unpacking gives back what was packed, whatever was in the buffer before. */
  lemma {:induction false} RoundTrip(ty: Ty, v: Val, buf: seq<Byte>)
    requires TyOk(ty) && ValOk(ty, v) && |buf| == SizeOf(ty)
    ensures Unpacked(ty, Packed(ty, v, buf)) == v
    decreases ty, 0
  {
    match ty
    case Int(bytes, signed) => NumberRoundTrip(v.n, bytes, signed);
    case Array(of, count) =>
      ElemsRoundTrip(of, v.vals, buf);
    case Struct(fields) =>
      StructFits(fields);
      FieldsRoundTrip(fields, Gaps(fields, 0), v.vals, buf);
    case Pointer => NumberRoundTrip(v.n, 8, false);
    case Atomic(of) => RoundTrip(of, v, buf);
  }

  lemma {:induction false} ElemsRoundTrip(of: Ty, vals: seq<Val>, buf: seq<Byte>)
    requires TyOk(of) && ElemsOk(of, vals) && |buf| == ElemsSize(of, |vals|)
    ensures UnpackedElems(of, |vals|, PackedElems(of, vals, buf)) == vals
    decreases of, 1, vals
  {
    if vals != [] {
      var first, rest := Packed(of, vals[0], buf[..SizeOf(of)]), PackedElems(of, vals[1..], buf[SizeOf(of)..]);
      RoundTrip(of, vals[0], buf[..SizeOf(of)]);
      ElemsRoundTrip(of, vals[1..], buf[SizeOf(of)..]);
      Halves(first, rest);
      HeadAndTail(vals);
    }
  }

  lemma {:induction false} FieldsRoundTrip(fields: Fields, gaps: seq<nat>, vals: seq<Val>, buf: seq<Byte>)
    requires FieldsOk(fields) && FieldValsOk(fields, vals) && Fits(fields, gaps, |buf|)
    ensures UnpackedFields(fields, gaps, PackedFields(fields, gaps, vals, buf)) == vals
    decreases fields
  {
    if fields.Field? {
      var gap, end := gaps[0], gaps[0] + SizeOf(fields.ty);
      var first := Packed(fields.ty, vals[0], buf[gap..end]);
      var rest := PackedFields(fields.rest, gaps[1..], vals[1..], buf[end..]);
      RoundTrip(fields.ty, vals[0], buf[gap..end]);
      FieldsRoundTrip(fields.rest, gaps[1..], vals[1..], buf[end..]);
      ThreeParts(buf[..gap], first, rest);
      HeadAndTail(vals);
    }
  }

  lemma ThreeParts(a: seq<Byte>, b: seq<Byte>, c: seq<Byte>)
    ensures (a + b + c)[..|a|] == a && (a + b + c)[|a|..|a| + |b|] == b && (a + b + c)[|a| + |b|..] == c
  {
  }
}
