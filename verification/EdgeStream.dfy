/**
 The word stream of the edge metadata: what a function record means, as words, and reading it back.
 */
module EdgeStream {
  import opened EdgeEncoding
  import opened MachineWords
  import opened Sequences

  /** Assign, Load, Store, Call, Return, ArgumentDefinition, ArgumentSupply, DlsymPagePointer. */
  const KINDS: nat := 8

  /** The number of words of an edge: the indexed kinds carry an index. */
  function Arity(kind: nat): nat {
    if kind == 3 || kind == 5 || kind == 6 then 3 else 2
  }

  /** The number of words of `count` edges. */
  function Size(arity: nat, count: nat): nat {
    arity * count
  }

  predicate WholeEdges(arity: nat, ws: seq<U32>) {
    if arity == 3 then |ws| % 3 == 0 else |ws| % 2 == 0
  }

  lemma SizeIsWhole(arity: nat, count: nat, ws: seq<U32>)
    requires 2 <= arity <= 3 && |ws| == Size(arity, count)
    ensures WholeEdges(arity, ws)
  {
    hide Size;
    match arity
    case 2 => SizeOfTwo(count);
    case _ => SizeOfThree(count);
  }

  lemma SizeOfTwo(count: nat)
    ensures Size(2, count) % 2 == 0
  {
  }

  lemma SizeOfThree(count: nat)
    ensures Size(3, count) % 3 == 0
  {
  }

  lemma WithoutFirst(arity: nat, ws: seq<U32>)
    requires 2 <= arity <= 3 && ws != [] && WholeEdges(arity, ws)
    ensures arity <= |ws| && WholeEdges(arity, ws[arity..])
  {
  }

  /** An edge with encoded nodes. `idx` is 0 for the kinds without one. */
  datatype RawEdge = RawEdge(to: U32, from: U32, idx: U32)

  predicate FitsArity(arity: nat, es: seq<RawEdge>) {
    arity == 2 ==> forall e | e in es :: e.idx == 0
  }

  /** What the stream has of one function; the edges of each kind in the order they are written. */
  datatype Record = Record(
    symbolIdx: U32, component: U32, version: U32, numLocals: U32, numAllocas: U32,
    edges: seq<seq<RawEdge>>
  )

  predicate WritableKinds(kinds: seq<seq<RawEdge>>) {
    && |kinds| == KINDS
    && (forall k {:trigger FitsArity(Arity(k), kinds[k])} | 0 <= k < KINDS :: FitsArity(Arity(k), kinds[k]))
    && (forall k | 0 <= k < KINDS :: |kinds[k]| < TWO_32)
  }

  predicate Writable(r: Record) {
    WritableKinds(r.edges)
  }

  predicate AllWritable(rs: seq<Record>) {
    forall r {:trigger Writable(r)} | r in rs :: Writable(r)
  }

  // ---------------------------------------------------------------------------------------
  // Writing
  // ---------------------------------------------------------------------------------------

  function DeltaCode(n: U32, previous: U32): U32 {
    ZigzagEncode(Signed(Wrap(n - previous)))
  }

  /** The words of one edge, after an edge or start value `previous`. */
  function EdgeWords(arity: nat, e: RawEdge, previous: U32): seq<U32> {
    [DeltaCode(e.to, previous), DeltaCode(e.from, e.to)] + if arity == 3 then [e.idx] else []
  }

  /** The words of the edges of one kind: one running value is shared by both ends. */
  function DeltaWords(arity: nat, es: seq<RawEdge>, previous: U32): seq<U32> {
    if es == [] then [] else EdgeWords(arity, es[0], previous) + DeltaWords(arity, es[1..], es[0].from)
  }

  /** The signed doubling in the zigzag code of each delta is defined. */
  predicate DeltasDefined(es: seq<RawEdge>, previous: U32) {
    es != [] ==>
      && DoublingDefined(Signed(Wrap(es[0].to - previous)))
      && DoublingDefined(Signed(Wrap(es[0].from - es[0].to)))
      && DeltasDefined(es[1..], es[0].from)
  }

  predicate SmallEnds(e: RawEdge) {
    e.to < TWO_31 / 2 && e.from < TWO_31 / 2
  }

  lemma {:induction false} SmallDeltasDefined(es: seq<RawEdge>, previous: U32)
    requires previous < TWO_31 / 2 && forall e | e in es :: SmallEnds(e)
    ensures DeltasDefined(es, previous)
  {
    if es != [] {
      assert SmallEnds(es[0]);
      SmallNumbersEncode(es[0].to, previous);
      SmallNumbersEncode(es[0].from, es[0].to);
      SmallDeltasDefined(es[1..], es[0].from);
    }
  }

  /** The count and the edges of kind `k` stand before everything else. */
  function KindBlock(es: seq<RawEdge>, k: nat): seq<U32>
    requires |es| < TWO_32
  {
    [|es|] + DeltaWords(Arity(k), es, 0)
  }

  function KindWords(kinds: seq<seq<RawEdge>>, k: nat): seq<U32>
    requires WritableKinds(kinds) && k <= KINDS
    decreases KINDS - k
  {
    if k == KINDS then [] else KindBlock(kinds[k], k) + KindWords(kinds, k + 1)
  }

  function HeaderWords(r: Record): seq<U32> {
    [r.symbolIdx, r.component, r.version, r.numLocals, r.numAllocas]
  }

  function RecordWords(r: Record): seq<U32>
    requires Writable(r)
  {
    HeaderWords(r) + KindWords(r.edges, 0)
  }

  function StreamWords(rs: seq<Record>): seq<U32>
    requires AllWritable(rs)
  {
    if rs == [] then [] else RecordWords(rs[0]) + StreamWords(rs[1..])
  }

  // ---------------------------------------------------------------------------------------
  // Reading
  // ---------------------------------------------------------------------------------------

  /** A value read, and the words behind it; None is an error return of the reader. */
  datatype Parsed<T> = Fail | Read(value: T, rest: seq<U32>)

  /** Undo the deltas of the first edge. */
  function FirstRaw(arity: nat, ws: seq<U32>, previous: U32): RawEdge
    requires 2 <= arity <= 3 && arity <= |ws|
  {
    var to := Wrap(previous + Wrap(ZigzagDecode(ws[0])));
    var from := Wrap(to + Wrap(ZigzagDecode(ws[1])));
    RawEdge(to, from, if arity == 3 then ws[2] else 0)
  }

  /** Undo the deltas of a block of words. */
  function EdgesOf(arity: nat, ws: seq<U32>, previous: U32): seq<RawEdge>
    requires 2 <= arity <= 3
  {
    if |ws| < arity then []
    else
      var e := FirstRaw(arity, ws, previous);
      [e] + EdgesOf(arity, ws[arity..], e.from)
  }

  function ReadKinds(ws: seq<U32>, k: nat): Parsed<seq<seq<RawEdge>>>
    requires k <= KINDS
    decreases KINDS - k
  {
    if k == KINDS then Read([], ws)
    else if ws == [] then Fail
    else
      var size := Size(Arity(k), ws[0]);
      if |ws| - 1 < size then Fail
      else
        match ReadKinds(ws[1 + size..], k + 1)
        case Fail => Fail
        case Read(kinds, rest) =>
          Read([EdgesOf(Arity(k), ws[1..1 + size], 0)] + kinds, rest)
  }

  /** The header words, the check on the alloca count, and the eight edge blocks. */
  function ReadRecord(ws: seq<U32>): Parsed<Record> {
    if |ws| < 5 || ws[4] > ws[3] then Fail
    else
      match ReadKinds(ws[5..], 0)
      case Fail => Fail
      case Read(kinds, rest) => Read(Record(ws[0], ws[1], ws[2], ws[3], ws[4], kinds), rest)
  }

  function ReadStream(count: nat, ws: seq<U32>): Parsed<seq<Record>> {
    if count == 0 then Read([], ws)
    else
      match ReadRecord(ws)
      case Fail => Fail
      case Read(r, rest) =>
        match ReadStream(count - 1, rest)
        case Fail => Fail
        case Read(rs, rest') => Read([r] + rs, rest')
  }

  // ---------------------------------------------------------------------------------------
  // Round trips
  // ---------------------------------------------------------------------------------------

  lemma EdgeWordsLength(arity: nat, e: RawEdge, previous: U32)
    requires 2 <= arity <= 3
    ensures |EdgeWords(arity, e, previous)| == arity
  {
  }

  lemma SizeMore(arity: nat, count: nat)
    ensures Size(arity, 0) == 0 && Size(arity, count + 1) == Size(arity, count) + arity
  {
  }

  lemma {:induction false} DeltaWordsLength(arity: nat, es: seq<RawEdge>, previous: U32)
    requires 2 <= arity <= 3
    ensures |DeltaWords(arity, es, previous)| == Size(arity, |es|)
  {
    hide EdgeWords, Size;
    if es == [] {
      SizeMore(arity, 0);
    } else {
      DeltaWordsLength(arity, es[1..], es[0].from);
      EdgeWordsLength(arity, es[0], previous);
      SizeMore(arity, |es| - 1);
    }
  }

  lemma {:induction false} DeltasRoundTrip(arity: nat, es: seq<RawEdge>, previous: U32)
    requires 2 <= arity <= 3 && FitsArity(arity, es)
    ensures EdgesOf(arity, DeltaWords(arity, es, previous), previous) == es
  {
    if es != [] {
      var e := es[0];
      assert e in es && FitsArity(arity, es[1..]);
      FirstEdge(arity, e, previous, DeltaWords(arity, es[1..], e.from));
      DeltasRoundTrip(arity, es[1..], e.from);
      HeadAndTail(es);
    }
  }

  lemma FirstEdge(arity: nat, e: RawEdge, previous: U32, rest: seq<U32>)
    requires 2 <= arity <= 3 && (arity == 2 ==> e.idx == 0)
    ensures EdgesOf(arity, EdgeWords(arity, e, previous) + rest, previous) == [e] + EdgesOf(arity, rest, e.from)
  {
    var ws := EdgeWords(arity, e, previous) + rest;
    Halves(EdgeWords(arity, e, previous), rest);
    FirstOfBlock(arity, ws, previous);
    FirstRawIs(arity, e, previous, ws);
  }

  lemma FirstRawIs(arity: nat, e: RawEdge, previous: U32, ws: seq<U32>)
    requires 2 <= arity <= 3 && arity <= |ws|
    requires ws[0] == DeltaCode(e.to, previous) && ws[1] == DeltaCode(e.from, e.to)
    requires e.idx == if arity == 3 then ws[2] else 0
    ensures FirstRaw(arity, ws, previous) == e
  {
    hide ZigzagEncode, ZigzagDecode;
    DeltaRoundTrip(e.to, previous);
    DeltaRoundTrip(e.from, e.to);
  }

  lemma FirstOfBlock(arity: nat, ws: seq<U32>, previous: U32)
    requires 2 <= arity <= 3 && arity <= |ws|
    ensures EdgesOf(arity, ws, previous) ==
      [FirstRaw(arity, ws, previous)] + EdgesOf(arity, ws[arity..], FirstRaw(arity, ws, previous).from)
  {
  }

  lemma {:induction false} KindsRoundTrip(kinds: seq<seq<RawEdge>>, k: nat, rest: seq<U32>)
    requires WritableKinds(kinds) && k <= KINDS
    ensures ReadKinds(KindWords(kinds, k) + rest, k) == Read(kinds[k..], rest)
    decreases KINDS - k
  {
    hide *;
    if k == KINDS {
      NoKinds(kinds, rest);
    } else {
      KindsRoundTrip(kinds, k + 1, rest);
      NextKind(kinds, k, rest);
    }
  }

  lemma NoKinds(kinds: seq<seq<RawEdge>>, rest: seq<U32>)
    requires WritableKinds(kinds)
    ensures ReadKinds(KindWords(kinds, KINDS) + rest, KINDS) == Read(kinds[KINDS..], rest)
  {
    EmptyUnit(rest);
    assert kinds[KINDS..] == [];
  }

  lemma NextKind(kinds: seq<seq<RawEdge>>, k: nat, rest: seq<U32>)
    requires WritableKinds(kinds) && k < KINDS
    requires ReadKinds(KindWords(kinds, k + 1) + rest, k + 1) == Read(kinds[k + 1..], rest)
    ensures ReadKinds(KindWords(kinds, k) + rest, k) == Read(kinds[k..], rest)
  {
    KindIsFirst(kinds, k, rest);
    FirstKind(kinds[k], k, KindWords(kinds, k + 1) + rest, kinds[k + 1..], rest);
    SliceHead(kinds, k);
  }

  lemma KindIsFirst(kinds: seq<seq<RawEdge>>, k: nat, rest: seq<U32>)
    requires WritableKinds(kinds) && k < KINDS
    ensures KindWords(kinds, k) + rest == KindBlock(kinds[k], k) + (KindWords(kinds, k + 1) + rest)
  {
    Associative(KindBlock(kinds[k], k), KindWords(kinds, k + 1), rest);
  }

  lemma FirstKind(es: seq<RawEdge>, k: nat, tail: seq<U32>, kinds: seq<seq<RawEdge>>, rest: seq<U32>)
    requires k < KINDS && FitsArity(Arity(k), es) && |es| < TWO_32
    requires ReadKinds(tail, k + 1) == Read(kinds, rest)
    ensures ReadKinds(KindBlock(es, k) + tail, k) == Read([es] + kinds, rest)
  {
    var block := DeltaWords(Arity(k), es, 0);
    var ws := KindBlock(es, k) + tail;
    DeltasRoundTrip(Arity(k), es, 0);
    DeltaWordsLength(Arity(k), es, 0);
    Halves(KindBlock(es, k), tail);
    assert ws[0] == |es| && ws[1 + |block|..] == tail;
    assert ws[1..1 + |block|] == block;
  }

  /** One function: what was written is read back, with the words behind it, unless the alloca count is off. */
  lemma RecordRoundTrip(r: Record, rest: seq<U32>)
    requires Writable(r)
    ensures ReadRecord(RecordWords(r) + rest) == if r.numAllocas <= r.numLocals then Read(r, rest) else Fail
  {
    var tail := KindWords(r.edges, 0) + rest;
    Associative(HeaderWords(r), KindWords(r.edges, 0), rest);
    KindsRoundTrip(r.edges, 0, rest);
    WholeSlice(r.edges);
    HeaderFirst(r, tail, rest);
  }

  lemma HeaderFirst(r: Record, tail: seq<U32>, rest: seq<U32>)
    requires ReadKinds(tail, 0) == Read(r.edges, rest)
    ensures ReadRecord(HeaderWords(r) + tail) == if r.numAllocas <= r.numLocals then Read(r, rest) else Fail
  {
    Halves(HeaderWords(r), tail);
  }

  predicate AllocasFit(rs: seq<Record>) {
    forall r | r in rs :: r.numAllocas <= r.numLocals
  }

  /** The whole stream: every function is read back and every word is used, or an alloca count is off. */
  lemma {:induction false} StreamRoundTrip(rs: seq<Record>, rest: seq<U32>)
    requires AllWritable(rs)
    ensures ReadStream(|rs|, StreamWords(rs) + rest) == if AllocasFit(rs) then Read(rs, rest) else Fail
  {
    if rs == [] {
      EmptyUnit(rest);
    } else {
      StreamRoundTrip(rs[1..], rest);
      Associative(RecordWords(rs[0]), StreamWords(rs[1..]), rest);
      FirstRecord(rs[0], rs[1..], StreamWords(rs[1..]) + rest, rest);
      HeadAndTail(rs);
    }
  }

  lemma FirstRecord(r: Record, rs: seq<Record>, tail: seq<U32>, rest: seq<U32>)
    requires Writable(r)
    requires ReadStream(|rs|, tail) == if AllocasFit(rs) then Read(rs, rest) else Fail
    ensures ReadStream(|rs| + 1, RecordWords(r) + tail) == if AllocasFit([r] + rs) then Read([r] + rs, rest) else Fail
  {
    RecordRoundTrip(r, tail);
    AllocasFitCons(r, rs);
    Halves([r], rs);
  }

  lemma AllocasFitCons(r: Record, rs: seq<Record>)
    ensures AllocasFit([r] + rs) <==> r.numAllocas <= r.numLocals && AllocasFit(rs)
  {
    assert r in [r] + rs && forall q | q in rs :: q in [r] + rs;
  }

  lemma {:induction false} StreamWordsAppend(rs: seq<Record>, r: Record)
    requires Writable(r) && AllWritable(rs)
    ensures AllWritable(rs + [r])
    ensures StreamWords(rs + [r]) == StreamWords(rs) + RecordWords(r)
  {
    if rs == [] {
      EmptyUnit([r]);
      EmptyUnit(RecordWords(r));
    } else {
      StreamWordsAppend(rs[1..], r);
      TailOfAppend(rs, r);
      Associative(RecordWords(rs[0]), StreamWords(rs[1..]), RecordWords(r));
    }
  }

  /** The words of `rs` before others. */
  function Continued(rs: seq<Record>, rest: seq<U32>): seq<U32>
    requires AllWritable(rs)
  {
    StreamWords(rs) + rest
  }

  /** `ws` are the words of `rs`, whatever comes behind them. */
  ghost predicate HoldsStream(ws: seq<U32>, rs: seq<Record>) {
    && AllWritable(rs)
    && forall rest: seq<U32> {:trigger Continued(rs, rest)} :: ws + rest == Continued(rs, rest)
  }

  lemma HoldsStreamIff(ws: seq<U32>, rs: seq<Record>)
    requires AllWritable(rs)
    ensures HoldsStream(ws, rs) <==> ws == StreamWords(rs)
  {
    if HoldsStream(ws, rs) {
      assert ws + [] == Continued(rs, []);
      EmptyUnit(ws);
      EmptyUnit(StreamWords(rs));
    }
  }

  lemma StreamGrows(ws: seq<U32>, rs: seq<Record>, r: Record)
    requires HoldsStream(ws, rs) && Writable(r)
    ensures HoldsStream(ws + RecordWords(r), rs + [r])
  {
    HoldsStreamIff(ws, rs);
    StreamWordsAppend(rs, r);
    HoldsStreamIff(ws + RecordWords(r), rs + [r]);
  }
}
