/**
 The layout of the structures that the instrumented program and the analysis share, and packing values
 into memory.
 */
module RuntimeFormat {
  import opened MachineWords
  import opened Sequences

  /** `bytes` is 1, 2, 4 or 8. What a pointer points to has no part in the layout. */
  datatype Ty =
    | Int(bytes: nat, signed: bool)
    | Array(of: Ty, count: nat)
    | Struct(fields: Fields)
    | Pointer
    | Atomic(of: Ty)

  datatype Fields = End | Field(ty: Ty, rest: Fields)

  datatype Layout = Layout(size: nat, align: nat)

  predicate IsAlign(n: nat) {
    n == 1 || n == 2 || n == 4 || n == 8
  }

  predicate TyOk(ty: Ty) {
    match ty
    case Int(bytes, _) => IsAlign(bytes)
    case Array(of, count) => count > 0 && TyOk(of)
    case Struct(fields) => fields.Field? && FieldsOk(fields)
    case Pointer => true
    case Atomic(of) => TyOk(of)
  }

  predicate FieldsOk(fields: Fields) {
    fields.Field? ==> TyOk(fields.ty) && FieldsOk(fields.rest)
  }

  // ---------------------------------------------------------------------------------------
  // Fields one after the other
  // ---------------------------------------------------------------------------------------

  /** The remainder, by subtracting. */
  function Over(n: nat, align: nat): (r: nat)
    requires IsAlign(align)
    ensures r < align
  {
    if n < align then n else Over(n - align, align)
  }

  lemma {:induction false} OverIsRemainder(n: nat, align: nat)
    requires IsAlign(align)
    ensures Over(n, align) == n % align
  {
    if n >= align {
      OverIsRemainder(n - align, align);
      match align
      case 1 => SubtractOne(n);
      case 2 => SubtractTwo(n);
      case 4 => SubtractFour(n);
      case _ => SubtractEight(n);
    } else {
      SmallRemainder(n, align);
    }
  }

  lemma SmallRemainder(n: nat, d: nat)
    requires n < d
    ensures n % d == n
  {
  }

  lemma SubtractOne(n: nat)
    requires n >= 1
    ensures (n - 1) % 1 == n % 1
  {
  }

  lemma SubtractTwo(n: nat)
    requires n >= 2
    ensures (n - 2) % 2 == n % 2
  {
  }

  lemma SubtractFour(n: nat)
    requires n >= 4
    ensures (n - 4) % 4 == n % 4
  {
  }

  lemma SubtractEight(n: nat)
    requires n >= 8
    ensures (n - 8) % 8 == n % 8
  {
  }

  /** Adding what is missing gives a multiple, and adding less does not. */
  lemma {:induction false} OverOfSum(n: nat, k: nat, align: nat)
    requires IsAlign(align) && Over(n, align) + k <= align
    ensures Over(n + k, align) == if Over(n, align) + k == align then 0 else Over(n, align) + k
  {
    if n >= align {
      OverOfSum(n - align, k, align);
    } else if n + k == align {
      assert Over(0, align) == 0;
    }
  }

  /** The first multiple of `align` from `n` on. */
  function PadTo(n: nat, align: nat): (m: nat)
    requires IsAlign(align)
    ensures n <= m < n + align
  {
    if Over(n, align) == 0 then n else n + (align - Over(n, align))
  }

  lemma PadToIsMultiple(n: nat, align: nat)
    requires IsAlign(align)
    ensures PadTo(n, align) % align == 0
    ensures PadTo(n, align) == if n % align == 0 then n else n + (align - n % align)
  {
    OverIsRemainder(n, align);
    OverOfSum(n, PadTo(n, align) - n, align);
    OverIsRemainder(PadTo(n, align), align);
  }

  predicate Aligned(ls: seq<Layout>) {
    ls != [] ==> IsAlign(ls[0].align) && Aligned(ls[1..])
  }

  /** Where the last field ends, if the first one may start at `offset`. */
  function EndOf(ls: seq<Layout>, offset: nat): (end: nat)
    requires Aligned(ls)
    ensures end >= offset
  {
    if ls == [] then offset else EndOf(ls[1..], PadTo(offset, ls[0].align) + ls[0].size)
  }

  function Offsets(ls: seq<Layout>, offset: nat): (offsets: seq<nat>)
    requires Aligned(ls)
    ensures |offsets| == |ls|
  {
    if ls == [] then []
    else
      var start := PadTo(offset, ls[0].align);
      [start] + Offsets(ls[1..], start + ls[0].size)
  }

  function MaxAlign(ls: seq<Layout>): (align: nat)
    requires Aligned(ls)
    ensures IsAlign(align)
  {
    if ls == [] then 1 else if ls[0].align > MaxAlign(ls[1..]) then ls[0].align else MaxAlign(ls[1..])
  }

  /** A struct is padded to the alignment of its first field. */
  function StructLayout(ls: seq<Layout>): Layout
    requires Aligned(ls) && ls != []
  {
    Layout(PadTo(EndOf(ls, 0), ls[0].align), MaxAlign(ls))
  }

  /** Section 3.1.2 of the System V AMD64 psABI: a struct is padded to the alignment of its strictest field. */
  function CStructLayout(ls: seq<Layout>): Layout
    requires Aligned(ls) && ls != []
  {
    Layout(PadTo(EndOf(ls, 0), MaxAlign(ls)), MaxAlign(ls))
  }

  /** The loop that finds the next multiple by counting. */
  method AlignUp(n: nat, align: nat) returns (m: nat)
    requires IsAlign(align)
    ensures m == PadTo(n, align)
  {
    m := n;
    OverIsRemainder(m, align);
    while m % align != 0
      invariant PadTo(m, align) == PadTo(n, align) && Over(m, align) == m % align
      decreases PadTo(n, align) - m
    {
      OverOfSum(m, 1, align);
      m := m + 1;
      OverIsRemainder(m, align);
    }
  }

  /**
   `all` are the offsets of a struct that ends at `finish`, of which `offsets` are found,
   and `left` is left from `end` on.
   */
  predicate FoundSoFar(all: seq<nat>, finish: nat, offsets: seq<nat>, left: seq<Layout>, end: nat) {
    Aligned(left) && all == offsets + Offsets(left, end) && finish == EndOf(left, end)
  }

  lemma FindNext(all: seq<nat>, finish: nat, offsets: seq<nat>, left: seq<Layout>, end: nat)
    requires left != [] && FoundSoFar(all, finish, offsets, left, end)
    ensures
      var start := PadTo(end, left[0].align);
      FoundSoFar(all, finish, offsets + [start], left[1..], start + left[0].size)
  {
    var start := PadTo(end, left[0].align);
    Associative(offsets, [start], Offsets(left[1..], start + left[0].size));
  }

  /** `field_offsets`, and where the last field ends. */
  method FieldOffsets(ls: seq<Layout>) returns (offsets: seq<nat>, end: nat)
    requires Aligned(ls)
    ensures offsets == Offsets(ls, 0) && end == EndOf(ls, 0)
  {
    offsets := [];
    end := 0;
    ghost var all, finish, left := Offsets(ls, 0), EndOf(ls, 0), ls;
    EmptyUnit(all);
    WholeSlice(ls);
    for i := 0 to |ls|
      invariant left == ls[i..] && FoundSoFar(all, finish, offsets, left, end)
    {
      FindNext(all, finish, offsets, left, end);
      var start := AlignUp(end, ls[i].align);
      offsets := offsets + [start];
      end := start + ls[i].size;
      SliceHead(ls, i);
      left := left[1..];
    }
    EmptyUnit(offsets);
  }

  /** Field `k` is aligned at its offset, and ends before the next one starts. */
  lemma {:induction false} FieldsFit(ls: seq<Layout>, offset: nat, k: nat)
    requires Aligned(ls) && k < |ls|
    ensures IsAlign(ls[k].align) && Offsets(ls, offset)[k] % ls[k].align == 0
    ensures offset <= Offsets(ls, offset)[k]
    ensures Offsets(ls, offset)[k] + ls[k].size <=
      if k + 1 < |ls| then Offsets(ls, offset)[k + 1] else EndOf(ls, offset)
  {
    var next := PadTo(offset, ls[0].align) + ls[0].size;
    PadToIsMultiple(offset, ls[0].align);
    if k > 0 {
      FieldsFit(ls[1..], next, k - 1);
    } else if 1 < |ls| {
      FieldsFit(ls[1..], next, 0);
    }
  }

  /** The ranges of any two fields of a struct are disjoint, and both are inside the struct. */
  lemma {:induction false} FieldsAreDisjoint(ls: seq<Layout>, j: nat, k: nat)
    requires Aligned(ls) && j < k < |ls|
    ensures Offsets(ls, 0)[j] + ls[j].size <= Offsets(ls, 0)[k]
    ensures Offsets(ls, 0)[k] + ls[k].size <= StructLayout(ls).size
    decreases k - j
  {
    FieldsFit(ls, 0, j);
    InsideStruct(ls, k);
    if j + 1 < k {
      FieldsFit(ls, 0, j + 1);
      FieldsAreDisjoint(ls, j + 1, k);
    }
  }

  lemma {:induction false} InsideStruct(ls: seq<Layout>, k: nat)
    requires Aligned(ls) && k < |ls|
    ensures Offsets(ls, 0)[k] + ls[k].size <= EndOf(ls, 0) <= StructLayout(ls).size
    decreases |ls| - k
  {
    FieldsFit(ls, 0, k);
    if k + 1 < |ls| {
      InsideStruct(ls, k + 1);
    }
  }

  // ---------------------------------------------------------------------------------------
  // The layout of C
  // ---------------------------------------------------------------------------------------

  /**
   Where the last field ends: at a multiple of the strictest alignment, or so shortly before one that padding
   to the alignment of the first field reaches it.
   */
  predicate EndsWell(ls: seq<Layout>)
    requires Aligned(ls) && ls != []
  {
    var r := EndOf(ls, 0) % MaxAlign(ls);
    r == 0 || r > MaxAlign(ls) - ls[0].align
  }

  /** With the fields laid out as in C, the struct is too exactly if the last field ends well. */
  lemma CStructIff(ls: seq<Layout>)
    requires Aligned(ls) && ls != []
    ensures StructLayout(ls) == CStructLayout(ls) <==> EndsWell(ls)
    ensures ls[0].align == MaxAlign(ls) ==> EndsWell(ls)
  {
    OverIsRemainder(EndOf(ls, 0), MaxAlign(ls));
    SamePadding(EndOf(ls, 0), ls[0].align, MaxAlign(ls));
  }

  lemma SamePadding(end: nat, first: nat, strictest: nat)
    requires IsAlign(first) && IsAlign(strictest) && first <= strictest
    ensures PadTo(end, first) == PadTo(end, strictest)
       <==> Over(end, strictest) == 0 || Over(end, strictest) > strictest - first
  {
    var r := Over(end, strictest);
    OverOfOver(end, first, strictest);
    if r >= strictest - first {
      OverAtTop(r, first, strictest);
    }
  }

  /** A larger alignment is a multiple of a smaller one. */
  lemma {:induction false} SubtractMultiple(n: nat, first: nat, strictest: nat)
    requires IsAlign(first) && IsAlign(strictest) && first <= strictest <= n
    ensures Over(n - strictest, first) == Over(n, first)
    decreases strictest
  {
    if first < strictest {
      var half := strictest / 2;
      SubtractMultiple(n, first, half);
      SubtractMultiple(n - half, first, half);
    }
  }

  lemma {:induction false} OverOfOver(n: nat, first: nat, strictest: nat)
    requires IsAlign(first) && IsAlign(strictest) && first <= strictest
    ensures Over(Over(n, strictest), first) == Over(n, first)
  {
    if n >= strictest {
      OverOfOver(n - strictest, first, strictest);
      SubtractMultiple(n, first, strictest);
    }
  }

  lemma {:induction false} OverAtTop(r: nat, first: nat, strictest: nat)
    requires IsAlign(first) && IsAlign(strictest) && first <= strictest && strictest - first <= r < strictest
    ensures Over(r, first) == r - (strictest - first)
    decreases strictest
  {
    if first < strictest {
      var half := strictest / 2;
      SubtractMultiple(r, first, half);
      OverAtTop(r - half, first, half);
    }
  }

  /** The product, by adding up: the size of an array, element by element. */
  function Times(size: nat, count: nat): nat {
    if count == 0 then 0 else size + Times(size, count - 1)
  }

  lemma {:induction false} TimesIsProduct(size: nat, count: nat)
    ensures Times(size, count) == size * count
  {
    if count > 0 {
      TimesIsProduct(size, count - 1);
      assert size * count == size * (count - 1) + size;
    }
  }

  function LayoutOf(ty: Ty): (l: Layout)
    requires TyOk(ty)
    ensures IsAlign(l.align)
  {
    match ty
    case Int(bytes, _) => Layout(bytes, bytes)
    case Array(of, count) => Layout(Times(LayoutOf(of).size, count), LayoutOf(of).align)
    case Struct(fields) => StructLayout(LayoutsOf(fields))
    case Pointer => Layout(8, 8)
    case Atomic(of) => LayoutOf(of)
  }

  function LayoutsOf(fields: Fields): (ls: seq<Layout>)
    requires FieldsOk(fields)
    ensures Aligned(ls) && (fields.Field? ==> ls != [])
  {
    if fields.End? then [] else [LayoutOf(fields.ty)] + LayoutsOf(fields.rest)
  }

  function CLayoutOf(ty: Ty): (l: Layout)
    requires TyOk(ty)
    ensures IsAlign(l.align)
  {
    match ty
    case Int(bytes, _) => Layout(bytes, bytes)
    case Array(of, count) => Layout(Times(CLayoutOf(of).size, count), CLayoutOf(of).align)
    case Struct(fields) => CStructLayout(CLayoutsOf(fields))
    case Pointer => Layout(8, 8)
    case Atomic(of) => CLayoutOf(of)
  }

  function CLayoutsOf(fields: Fields): (ls: seq<Layout>)
    requires FieldsOk(fields)
    ensures Aligned(ls) && (fields.Field? ==> ls != [])
  {
    if fields.End? then [] else [CLayoutOf(fields.ty)] + CLayoutsOf(fields.rest)
  }

  /** In every struct within the type, the last field ends well. */
  predicate WholeStructs(ty: Ty)
    requires TyOk(ty)
  {
    match ty
    case Int(_, _) => true
    case Array(of, _) => WholeStructs(of)
    case Struct(fields) => EndsWell(LayoutsOf(fields)) && WholeFields(fields)
    case Pointer => true
    case Atomic(of) => WholeStructs(of)
  }

  predicate WholeFields(fields: Fields)
    requires FieldsOk(fields)
  {
    fields.Field? ==> WholeStructs(fields.ty) && WholeFields(fields.rest)
  }

  /** Such types are laid out as in C, however deep they nest. */
  lemma {:induction false} WholeIsC(ty: Ty)
    requires TyOk(ty) && WholeStructs(ty)
    ensures LayoutOf(ty) == CLayoutOf(ty)
  {
    match ty
    case Int(_, _) =>
    case Array(of, _) => WholeIsC(of);
    case Struct(fields) =>
      WholeFieldsAreC(fields);
      CStructIff(LayoutsOf(fields));
    case Pointer =>
    case Atomic(of) => WholeIsC(of);
  }

  lemma {:induction false} WholeFieldsAreC(fields: Fields)
    requires FieldsOk(fields) && WholeFields(fields)
    ensures LayoutsOf(fields) == CLayoutsOf(fields)
  {
    if fields.Field? {
      WholeIsC(fields.ty);
      WholeFieldsAreC(fields.rest);
    }
  }

  /** The type and everything in it has the layout that C gives it. */
  predicate AsInC(ty: Ty)
    requires TyOk(ty)
  {
    && LayoutOf(ty) == CLayoutOf(ty)
    && match ty
       case Int(_, _) => true
       case Array(of, _) => AsInC(of)
       case Struct(fields) => FieldsAsInC(fields)
       case Pointer => true
       case Atomic(of) => AsInC(of)
  }

  predicate FieldsAsInC(fields: Fields)
    requires FieldsOk(fields)
  {
    fields.Field? ==> AsInC(fields.ty) && FieldsAsInC(fields.rest)
  }

  /** Exactly these types are laid out as in C throughout. */
  lemma {:induction false} AsInCIff(ty: Ty)
    requires TyOk(ty)
    ensures AsInC(ty) <==> WholeStructs(ty)
  {
    if WholeStructs(ty) {
      WholeIsC(ty);
    }
    match ty
    case Int(_, _) =>
    case Array(of, _) => AsInCIff(of);
    case Struct(fields) =>
      FieldsAsInCIff(fields);
      if FieldsAsInC(fields) {
        WholeFieldsAreC(fields);
        CStructIff(LayoutsOf(fields));
      }
    case Pointer =>
    case Atomic(of) => AsInCIff(of);
  }

  lemma {:induction false} FieldsAsInCIff(fields: Fields)
    requires FieldsOk(fields)
    ensures FieldsAsInC(fields) <==> WholeFields(fields)
  {
    if fields.Field? {
      AsInCIff(fields.ty);
      FieldsAsInCIff(fields.rest);
    }
  }

  // ---------------------------------------------------------------------------------------
  // Two structs
  // ---------------------------------------------------------------------------------------

  /** One more field in front. */
  lemma LayoutInFront(l: Layout, ls: seq<Layout>, offset: nat, start: nat)
    requires IsAlign(l.align) && Aligned(ls) && start == PadTo(offset, l.align)
    ensures Aligned([l] + ls)
    ensures EndOf([l] + ls, offset) == EndOf(ls, start + l.size)
    ensures Offsets([l] + ls, offset) == [start] + Offsets(ls, start + l.size)
    ensures MaxAlign([l] + ls) == if l.align > MaxAlign(ls) then l.align else MaxAlign(ls)
  {
    hide PadTo, Over;
    assert ([l] + ls)[1..] == ls;
  }

  lemma FieldInFront(ty: Ty, rest: Fields, l: Layout, ls: seq<Layout>)
    requires TyOk(ty) && FieldsOk(rest)
    requires LayoutOf(ty) == CLayoutOf(ty) == l && LayoutsOf(rest) == CLayoutsOf(rest) == ls
    ensures FieldsOk(Field(ty, rest)) && LayoutsOf(Field(ty, rest)) == CLayoutsOf(Field(ty, rest)) == [l] + ls
  {
  }

  /** A byte, a 64-bit number and a byte. */
  function Uneven(): Ty {
    Struct(UnevenFields())
  }

  function UnevenFields(): Fields {
    Field(Int(1, false), Field(Int(8, false), Field(Int(1, false), End)))
  }

  lemma UnevenLayouts()
    ensures FieldsOk(UnevenFields())
    ensures LayoutsOf(UnevenFields()) == CLayoutsOf(UnevenFields())
      == [Layout(1, 1)] + ([Layout(8, 8)] + ([Layout(1, 1)] + []))
  {
    var u8, u64 := Int(1, false), Int(8, false);
    FieldInFront(u8, End, Layout(1, 1), []);
    FieldInFront(u64, Field(u8, End), Layout(8, 8), [Layout(1, 1)] + []);
    FieldInFront(u8, Field(u64, Field(u8, End)), Layout(1, 1), [Layout(8, 8)] + ([Layout(1, 1)] + []));
  }

  lemma UnevenEnd()
    ensures
      var ls := [Layout(1, 1)] + ([Layout(8, 8)] + ([Layout(1, 1)] + []));
      Aligned(ls) && EndOf(ls, 0) == 17 && MaxAlign(ls) == 8
  {
    PadToIsMultiple(0, 1);
    PadToIsMultiple(1, 8);
    PadToIsMultiple(16, 1);
    LayoutInFront(Layout(1, 1), [], 16, 16);
    LayoutInFront(Layout(8, 8), [Layout(1, 1)] + [], 1, 8);
    LayoutInFront(Layout(1, 1), [Layout(8, 8)] + ([Layout(1, 1)] + []), 0, 0);
  }

  /** It has 17 bytes, where C has 24. */
  lemma NotTheLayoutOfC()
    ensures TyOk(Uneven()) && !AsInC(Uneven())
    ensures LayoutOf(Uneven()).size == 17 && CLayoutOf(Uneven()).size == 24
  {
    UnevenLayouts();
    UnevenEnd();
    PadToIsMultiple(17, 1);
    PadToIsMultiple(17, 8);
  }

  function DlsymPage(): Ty {
    Struct(DlsymPageFields())
  }

  function DlsymPageFields(): Fields {
    Field(Atomic(Pointer), Field(Atomic(Int(8, false)), Field(DlsymPagePointers(), End)))
  }

  function DlsymPagePointers(): Ty {
    Array(Atomic(Pointer), DLSYM_PAGE_NUM_POINTERS)
  }

  function DlsymPageLayouts(): seq<Layout> {
    [Layout(8, 8)] + ([Layout(8, 8)] + ([Layout(8 * DLSYM_PAGE_NUM_POINTERS, 8)] + []))
  }

  lemma DlsymPagePointersLayout()
    ensures TyOk(DlsymPagePointers())
    ensures LayoutOf(DlsymPagePointers()) == CLayoutOf(DlsymPagePointers()) == Layout(8 * DLSYM_PAGE_NUM_POINTERS, 8)
  {
    TimesIsProduct(8, DLSYM_PAGE_NUM_POINTERS);
    assert TyOk(Atomic(Pointer)) && LayoutOf(Atomic(Pointer)) == CLayoutOf(Atomic(Pointer)) == Layout(8, 8);
  }

  lemma DlsymPageTypes()
    ensures FieldsOk(DlsymPageFields())
    ensures LayoutsOf(DlsymPageFields()) == CLayoutsOf(DlsymPageFields()) == DlsymPageLayouts()
  {
    var link, count, last := Atomic(Pointer), Atomic(Int(8, false)), Layout(8 * DLSYM_PAGE_NUM_POINTERS, 8);
    assert TyOk(link) && LayoutOf(link) == CLayoutOf(link) == Layout(8, 8);
    assert TyOk(count) && LayoutOf(count) == CLayoutOf(count) == Layout(8, 8);
    DlsymPagePointersLayout();
    FieldInFront(DlsymPagePointers(), End, last, []);
    FieldInFront(count, Field(DlsymPagePointers(), End), Layout(8, 8), [last] + []);
    FieldInFront(link, Field(count, Field(DlsymPagePointers(), End)), Layout(8, 8), [Layout(8, 8)] + ([last] + []));
  }

  lemma DlsymPageOffsets()
    ensures Aligned(DlsymPageLayouts()) && Offsets(DlsymPageLayouts(), 0) == [0, 8, 16]
    ensures EndOf(DlsymPageLayouts(), 0) == DLSYM_PAGE_SIZE && MaxAlign(DlsymPageLayouts()) == 8
  {
    var last := Layout(8 * DLSYM_PAGE_NUM_POINTERS, 8);
    PadToIsMultiple(0, 8);
    PadToIsMultiple(8, 8);
    PadToIsMultiple(16, 8);
    LayoutInFront(last, [], 16, 16);
    LayoutInFront(Layout(8, 8), [last] + [], 8, 8);
    LayoutInFront(Layout(8, 8), [Layout(8, 8)] + ([last] + []), 0, 0);
  }

  /** The page of the `dlsym` list: the link, the count, and 2046 pointers fill 16 KiB, as in C. */
  lemma DlsymPageLayout()
    ensures DLSYM_PAGE_NUM_POINTERS == 2046
    ensures TyOk(DlsymPage()) && Offsets(LayoutsOf(DlsymPageFields()), 0) == [0, 8, 16]
    ensures LayoutOf(DlsymPage()) == CLayoutOf(DlsymPage()) == Layout(DLSYM_PAGE_SIZE, 8)
  {
    DlsymPageTypes();
    DlsymPageOffsets();
    PadToIsMultiple(DLSYM_PAGE_SIZE, 8);
  }
}
