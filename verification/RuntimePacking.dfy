/**
 Packing in place: every value is written into its part of one buffer, and the rest of the buffer stays as
 it is. The result is what `RuntimeValues` says about contents.
 */
module RuntimePacking {
  import opened LittleEndian
  import opened RuntimeFormat
  import opened RuntimeValues
  import opened Sequences

  /** The buffer with the part at `at` replaced, byte by byte. */
  function Splice(buf: seq<Byte>, at: nat, part: seq<Byte>): (r: seq<Byte>)
    requires at + |part| <= |buf|
    ensures |r| == |buf|
    decreases |part|
  {
    if part == [] then buf else Splice(buf[at := part[0]], at + 1, part[1..])
  }

  /** Only the part changes. */
  lemma {:induction false} SpliceIs(buf: seq<Byte>, at: nat, part: seq<Byte>)
    requires at + |part| <= |buf|
    ensures Splice(buf, at, part) == buf[..at] + part + buf[at + |part|..]
    decreases |part|
  {
    if part != [] {
      SpliceIs(buf[at := part[0]], at + 1, part[1..]);
    }
  }

  /** The buffer with a value packed at `at`. */
  function Written(ty: Ty, v: Val, buf: seq<Byte>, at: nat): (r: seq<Byte>)
    requires TyOk(ty) && ValOk(ty, v) && at + SizeOf(ty) <= |buf|
    ensures |r| == |buf|
  {
    Splice(buf, at, Packed(ty, v, buf[at..at + SizeOf(ty)]))
  }

  function WrittenElems(of: Ty, vals: seq<Val>, buf: seq<Byte>, at: nat, end: nat): (r: seq<Byte>)
    requires TyOk(of) && ElemsOk(of, vals) && at + ElemsSize(of, |vals|) == end <= |buf|
    ensures |r| == |buf|
  {
    Splice(buf, at, PackedElems(of, vals, buf[at..end]))
  }

  function WrittenFields(
      fields: Fields, gaps: seq<nat>, vals: seq<Val>, buf: seq<Byte>, at: nat, end: nat): (r: seq<Byte>)
    requires FieldsOk(fields) && FieldValsOk(fields, vals) && at <= end <= |buf| && Fits(fields, gaps, end - at)
    ensures |r| == |buf|
  {
    Splice(buf, at, PackedFields(fields, gaps, vals, buf[at..end]))
  }

  /** Two neighbouring parts are replaced one after the other. */
  lemma {:induction false} SpliceTwice(buf: seq<Byte>, at: nat, a: seq<Byte>, b: seq<Byte>)
    requires at + |a| + |b| <= |buf|
    ensures Splice(buf, at, a + b) == Splice(Splice(buf, at, a), at + |a|, b)
    decreases |a|
  {
    if a == [] {
      EmptyUnit(b);
    } else {
      SpliceTwice(buf[at := a[0]], at + 1, a[1..], b);
      assert (a + b)[1..] == a[1..] + b;
    }
  }

  lemma {:induction false} SpliceKeeps(buf: seq<Byte>, at: nat, part: seq<Byte>, end: nat)
    requires at + |part| <= end <= |buf|
    ensures Splice(buf, at, part)[at + |part|..end] == buf[at + |part|..end]
    decreases |part|
  {
    if part != [] {
      SpliceKeeps(buf[at := part[0]], at + 1, part[1..], end);
    }
  }

  /** What is replaced by itself stays. */
  lemma {:induction false} SpliceGap(buf: seq<Byte>, at: nat, start: nat)
    requires at <= start <= |buf|
    ensures Splice(buf, at, buf[at..start]) == buf
    decreases start - at
  {
    if at < start {
      assert buf[at := buf[at]] == buf;
      assert buf[at..start][1..] == buf[at + 1..start];
      SpliceGap(buf, at + 1, start);
    }
  }

  lemma FirstElem(of: Ty, vals: seq<Val>, buf: seq<Byte>)
    requires TyOk(of) && vals != [] && ElemsOk(of, vals) && |buf| == ElemsSize(of, |vals|)
    ensures PackedElems(of, vals, buf)
      == Packed(of, vals[0], buf[..SizeOf(of)]) + PackedElems(of, vals[1..], buf[SizeOf(of)..])
  {
  }

  lemma ElemThenRest(of: Ty, vals: seq<Val>, buf: seq<Byte>, at: nat, end: nat)
    requires TyOk(of) && vals != [] && ElemsOk(of, vals) && at + ElemsSize(of, |vals|) == end <= |buf|
    ensures at + SizeOf(of) + ElemsSize(of, |vals[1..]|) == end
    ensures WrittenElems(of, vals, buf, at, end)
      == Splice(
        buf, at, Packed(of, vals[0], buf[at..at + SizeOf(of)]) + PackedElems(of, vals[1..], buf[at + SizeOf(of)..end]))
  {
    hide Splice, PackedElems, Packed;
    var all, size := buf[at..end], SizeOf(of);
    assert size + ElemsSize(of, |vals[1..]|) == |all|;
    SliceOfSlice(buf, at, at + size, end);
    assert all[..size] == buf[at..at + size] && all[size..] == buf[at + size..end];
    FirstElem(of, vals, all);
  }

  lemma NextElem(of: Ty, vals: seq<Val>, buf: seq<Byte>, at: nat, end: nat)
    requires TyOk(of) && vals != [] && ElemsOk(of, vals) && at + ElemsSize(of, |vals|) == end <= |buf|
    ensures at + SizeOf(of) + ElemsSize(of, |vals[1..]|) == end
    ensures WrittenElems(of, vals, buf, at, end)
      == WrittenElems(of, vals[1..], Written(of, vals[0], buf, at), at + SizeOf(of), end)
  {
    hide Splice, PackedElems, Packed;
    ElemThenRest(of, vals, buf, at, end);
    var first := Packed(of, vals[0], buf[at..at + SizeOf(of)]);
    SpliceTwice(buf, at, first, PackedElems(of, vals[1..], buf[at + SizeOf(of)..end]));
    SpliceKeeps(buf, at, first, end);
  }

  lemma FirstField(fields: Fields, gaps: seq<nat>, vals: seq<Val>, buf: seq<Byte>)
    requires FieldsOk(fields) && fields.Field? && FieldValsOk(fields, vals) && Fits(fields, gaps, |buf|)
    ensures
      var end := gaps[0] + SizeOf(fields.ty);
      PackedFields(fields, gaps, vals, buf)
        == buf[..gaps[0]] + Packed(fields.ty, vals[0], buf[gaps[0]..end])
          + PackedFields(fields.rest, gaps[1..], vals[1..], buf[end..])
  {
  }

  lemma NextField(fields: Fields, gaps: seq<nat>, vals: seq<Val>, buf: seq<Byte>, at: nat, end: nat)
    requires FieldsOk(fields) && fields.Field? && FieldValsOk(fields, vals)
    requires at <= end <= |buf| && Fits(fields, gaps, end - at)
    ensures
      var start := at + gaps[0];
      WrittenFields(fields, gaps, vals, buf, at, end)
        == WrittenFields(
          fields.rest, gaps[1..], vals[1..], Written(fields.ty, vals[0], buf, start), start + SizeOf(fields.ty), end)
  {
    hide Splice, PackedFields, Packed;
    var start, next := at + gaps[0], at + gaps[0] + SizeOf(fields.ty);
    var gap, first := buf[at..start], Packed(fields.ty, vals[0], buf[start..next]);
    var rest := PackedFields(fields.rest, gaps[1..], vals[1..], buf[next..end]);
    var buf' := Written(fields.ty, vals[0], buf, start);
    SliceOfSlice(buf, at, start, end);
    SliceOfSlice(buf, at, next, end);
    SliceWithin(buf, at, start, next, end);
    FirstField(fields, gaps, vals, buf[at..end]);
    assert WrittenFields(fields, gaps, vals, buf, at, end) == Splice(buf, at, gap + first + rest);
    Associative(gap, first, rest);
    SpliceTwice(buf, at, gap, first + rest);
    SpliceGap(buf, at, start);
    SpliceTwice(buf, start, first, rest);
    SpliceKeeps(buf, start, first, end);
    assert WrittenFields(fields.rest, gaps[1..], vals[1..], buf', next, end) == Splice(buf', next, rest);
  }

  lemma SliceWithin(buf: seq<Byte>, at: nat, start: nat, next: nat, end: nat)
    requires at <= start <= next <= end <= |buf|
    ensures buf[at..end][start - at..next - at] == buf[start..next]
  {
    forall i | 0 <= i < next - start ensures buf[at..end][start - at..next - at][i] == buf[start..next][i] {
    }
  }

  lemma SliceOfSlice(buf: seq<Byte>, at: nat, mid: nat, end: nat)
    requires at <= mid <= end <= |buf|
    ensures buf[at..end][..mid - at] == buf[at..mid] && buf[at..end][mid - at..] == buf[mid..end]
  {
  }

  /** The bytes of a number, lowest first. */
  method PackBytes(raw: nat, bytes: nat, data: array<Byte>, at: nat)
    requires at + bytes <= data.Length
    modifies data
    ensures data[..] == Splice(old(data[..]), at, Little(raw, bytes))
  {
    ghost var buf := data[..];
    var left := raw;
    WholeSlice(Little(raw, bytes));
    for i := 0 to bytes
      invariant data[..] == Splice(buf, at, Little(raw, bytes)[..i])
      invariant Little(raw, bytes)[i..] == Little(left, bytes - i)
    {
      ghost var all := Little(raw, bytes);
      assert all[i] == all[i..][0] == Low(left);
      assert all[i + 1..] == all[i..][1..];
      ghost var before := data[..];
      data[at + i] := Low(left);
      assert data[..] == before[at + i := Low(left)] == Splice(before, at + i, [Low(left)]);
      assert all[..i + 1] == all[..i] + [all[i]];
      SpliceTwice(buf, at, all[..i], [all[i]]);
      left := left / 0x100;
    }
  }

  // ---------------------------------------------------------------------------------------
  // Packing a value of any type
  // ---------------------------------------------------------------------------------------

  /** `pack_into`: the value is written at `at`, and everything else in the buffer stays. */
  method PackInto(ty: Ty, v: Val, data: array<Byte>, at: nat)
    requires TyOk(ty) && ValOk(ty, v) && at + SizeOf(ty) <= data.Length
    modifies data
    ensures data[..] == Written(ty, v, old(data[..]), at)
    decreases ty, 0
  {
    match ty {
      case Int(bytes, _) => PackBytes(Raw(v.n, bytes), bytes, data, at);
      case Array(of, count) => PackElems(of, v.vals, data, at);
      case Struct(fields) =>
        StructFits(fields);
        PackFields(fields, v.vals, data, at, at + SizeOf(ty));
      case Pointer => PackBytes(Raw(v.n, 8), 8, data, at);
      case Atomic(of) => PackInto(of, v, data, at);
    }
  }

  /** Packing the elements that are left gives `goal`. */
  ghost predicate ElemsLeft(of: Ty, left: seq<Val>, buf: seq<Byte>, pos: nat, end: nat, goal: seq<Byte>)
    requires TyOk(of)
  {
    && ElemsOk(of, left) && pos + ElemsSize(of, |left|) == end <= |buf|
    && WrittenElems(of, left, buf, pos, end) == goal
  }

  /** The loop over the elements of an array. */
  method PackElems(of: Ty, vals: seq<Val>, data: array<Byte>, at: nat)
    requires TyOk(of) && ElemsOk(of, vals) && at + ElemsSize(of, |vals|) <= data.Length
    modifies data
    ensures data[..] == WrittenElems(of, vals, old(data[..]), at, at + ElemsSize(of, |vals|))
    decreases of, 2
  {
    ghost var end := at + ElemsSize(of, |vals|);
    ghost var goal := WrittenElems(of, vals, data[..], at, end);
    var left, pos: nat := vals, at;
    while left != []
      invariant ElemsLeft(of, left, data[..], pos, end, goal)
      decreases |left|
    {
      left, pos := PackElem(of, left, data, pos, end, goal);
    }
    SpliceGap(data[..], pos, end);
  }

  /** The body of the loop: pack the first of the elements that are left. */
  method PackElem(of: Ty, left: seq<Val>, data: array<Byte>, pos: nat, ghost end: nat, ghost goal: seq<Byte>)
    returns (left': seq<Val>, pos': nat)
    requires TyOk(of) && left != [] && ElemsLeft(of, left, data[..], pos, end, goal)
    modifies data
    ensures |left'| < |left| && ElemsLeft(of, left', data[..], pos', end, goal)
    decreases of, 1
  {
    hide WrittenElems, Written;
    NextElem(of, left, data[..], pos, end);
    PackInto(of, left[0], data, pos);
    left', pos' := left[1..], pos + SizeOf(of);
  }

  /** Where the fields start, each behind its gap. */
  function Starts(fields: Fields, gaps: seq<nat>, pos: nat): seq<nat>
    requires FieldsOk(fields)
  {
    if fields.End? || gaps == [] then []
    else [pos + gaps[0]] + Starts(fields.rest, gaps[1..], pos + gaps[0] + SizeOf(fields.ty))
  }

  /** The gaps lead to the offsets. */
  lemma {:induction false} StartsAreOffsets(fields: Fields, pos: nat)
    requires FieldsOk(fields)
    ensures Starts(fields, Gaps(fields, pos), pos) == Offsets(LayoutsOf(fields), pos)
    decreases fields
  {
    if fields.Field? {
      var offset := PadTo(pos, LayoutOf(fields.ty).align);
      StartsAreOffsets(fields.rest, offset + SizeOf(fields.ty));
      FirstOffset(fields, pos, offset);
    }
  }

  /** Packing the fields that are left gives `goal`; `pos` is where the last field ended. */
  ghost predicate FieldsLeft(
      left: Fields, vals: seq<Val>, gaps: seq<nat>, buf: seq<Byte>, pos: nat, end: nat, goal: seq<Byte>) {
    && FieldsOk(left) && FieldValsOk(left, vals)
    && pos <= end <= |buf| && Fits(left, gaps, end - pos)
    && WrittenFields(left, gaps, vals, buf, pos, end) == goal
  }

  lemma FieldFits(left: Fields, vals: seq<Val>, gaps: seq<nat>, buf: seq<Byte>, pos: nat, end: nat, goal: seq<Byte>)
    requires FieldsLeft(left, vals, gaps, buf, pos, end, goal) && left.Field?
    ensures TyOk(left.ty) && vals != [] && ValOk(left.ty, vals[0])
    ensures gaps != [] && pos + gaps[0] + SizeOf(left.ty) <= |buf|
  {
  }

  lemma NextLeft(
      left: Fields, vals: seq<Val>, gaps: seq<nat>, buf: seq<Byte>, pos: nat, end: nat, goal: seq<Byte>,
      buf': seq<Byte>)
    requires FieldsLeft(left, vals, gaps, buf, pos, end, goal) && left.Field?
    requires vals != [] && gaps != [] && pos + gaps[0] + SizeOf(left.ty) <= |buf|
    requires buf' == Written(left.ty, vals[0], buf, pos + gaps[0])
    ensures FieldsLeft(left.rest, vals[1..], gaps[1..], buf', pos + gaps[0] + SizeOf(left.ty), end, goal)
  {
    hide WrittenFields, Written;
    NextField(left, gaps, vals, buf, pos, end);
  }

  lemma NoneLeft(left: Fields, vals: seq<Val>, gaps: seq<nat>, buf: seq<Byte>, pos: nat, end: nat, goal: seq<Byte>)
    requires FieldsLeft(left, vals, gaps, buf, pos, end, goal) && left.End?
    ensures buf == goal
  {
    SpliceGap(buf, pos, end);
  }

  method FieldStarts(fields: Fields) returns (offsets: seq<nat>)
    requires FieldsOk(fields)
    ensures offsets == Starts(fields, Gaps(fields, 0), 0)
  {
    var end;
    offsets, end := FieldOffsets(LayoutsOf(fields));
    StartsAreOffsets(fields, 0);
  }

  /** The offset of the first of the fields that are left, and those behind it. */
  method NextOffset(left: Fields, offsets: seq<nat>, ghost gaps: seq<nat>, ghost pos: nat)
    returns (offset: nat, rest: seq<nat>, ghost gaps': seq<nat>, ghost pos': nat)
    requires FieldsOk(left) && left.Field? && gaps != [] && offsets == Starts(left, gaps, pos)
    ensures offset == pos + gaps[0] && gaps' == gaps[1..] && pos' == offset + SizeOf(left.ty)
    ensures rest == Starts(left.rest, gaps', pos')
  {
    offset, rest := offsets[0], offsets[1..];
    gaps', pos' := gaps[1..], pos + gaps[0] + SizeOf(left.ty);
  }

  /** The body of the loop: pack the first of the fields that are left. */
  method PackField(
      left: Fields, vals: seq<Val>, data: array<Byte>, at: nat,
      ghost gaps: seq<nat>, ghost pos: nat, ghost end: nat, ghost goal: seq<Byte>, ghost gaps': seq<nat>)
    returns (vals': seq<Val>, ghost pos': nat)
    requires left.Field? && FieldsLeft(left, vals, gaps, data[..], pos, end, goal)
    requires gaps != [] && at == pos + gaps[0] && gaps' == gaps[1..]
    modifies data
    ensures pos' == at + SizeOf(left.ty) && FieldsLeft(left.rest, vals', gaps', data[..], pos', end, goal)
    decreases left.ty, 1
  {
    hide *;
    ghost var buf := data[..];
    FieldFits(left, vals, gaps, buf, pos, end, goal);
    PackInto(left.ty, vals[0], data, at);
    vals', pos' := vals[1..], at + SizeOf(left.ty);
    NextLeft(left, vals, gaps, buf, pos, end, goal, data[..]);
  }

  /** The loop over the fields of a struct, at their offsets. */
  method PackFields(fields: Fields, vals: seq<Val>, data: array<Byte>, at: nat, ghost end: nat)
    requires FieldsOk(fields) && FieldValsOk(fields, vals)
    requires at <= end <= data.Length && Fits(fields, Gaps(fields, 0), end - at)
    modifies data
    ensures data[..] == WrittenFields(fields, Gaps(fields, 0), vals, old(data[..]), at, end)
    decreases fields
  {
    ghost var gaps, pos: nat, ended: nat := Gaps(fields, 0), at, 0;
    ghost var goal := WrittenFields(fields, gaps, vals, data[..], at, end);
    var offsets := FieldStarts(fields);
    var left, values := fields, vals;
    while left.Field?
      invariant left == fields || left < fields
      invariant FieldsLeft(left, values, gaps, data[..], pos, end, goal)
      invariant offsets == Starts(left, gaps, ended) && pos == at + ended
      decreases left
    {
      FieldFits(left, values, gaps, data[..], pos, end, goal);
      var offset, rest;
      ghost var gaps';
      offset, rest, gaps', ended := NextOffset(left, offsets, gaps, ended);
      values, pos := PackField(left, values, data, at + offset, gaps, pos, end, goal, gaps');
      left, offsets, gaps := left.rest, rest, gaps';
    }
    NoneLeft(left, values, gaps, data[..], pos, end, goal);
  }

  /** What was packed into a buffer is unpacked from it, and nothing else in the buffer has changed. */
  lemma WrittenIsRead(ty: Ty, v: Val, buf: seq<Byte>, at: nat)
    requires TyOk(ty) && ValOk(ty, v) && at + SizeOf(ty) <= |buf|
    ensures Unpacked(ty, Written(ty, v, buf, at)[at..at + SizeOf(ty)]) == v
    ensures Written(ty, v, buf, at)[..at] == buf[..at]
    ensures Written(ty, v, buf, at)[at + SizeOf(ty)..] == buf[at + SizeOf(ty)..]
  {
    var part := Packed(ty, v, buf[at..at + SizeOf(ty)]);
    RoundTrip(ty, v, buf[at..at + SizeOf(ty)]);
    SpliceIs(buf, at, part);
    ThreeParts(buf[..at], part, buf[at + SizeOf(ty)..]);
  }
}
