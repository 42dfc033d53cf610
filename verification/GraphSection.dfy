/**
 The graph section of a linked file: the graphs of the object files one after the other, with padding
 between them. The reader finds each graph by its magic number.
 */
module GraphSection {
  import opened LittleEndian
  import opened MachineWords
  import opened Sequences

  const HEADER_SIZE: nat := 40
  /** The writer insists on an alignment of 8, so its targets have pointers of 8 bytes. */
  const POINTER_SIZE: nat := 8

  // ---------------------------------------------------------------------------------------
  // Numbers
  // ---------------------------------------------------------------------------------------

  lemma FourBytes()
    ensures Bound(4) == 0x1_0000_0000
  {
    assert Bound(2) == 0x1_0000;
  }

  /** A word in memory: little-endian. */
  function Bytes(x: U32): (bs: seq<Byte>)
    ensures |bs| == 4
  {
    Little(x, 4)
  }

  function Number(bs: seq<Byte>): U32
    requires |bs| == 4
  {
    LittleOfValue(bs);
    FourBytes();
    Value(bs)
  }

  lemma NumberOfBytes(x: U32)
    ensures Number(Bytes(x)) == x
  {
    FourBytes();
    ValueOfLittle(x, 4);
  }

  lemma BytesOfNumber(bs: seq<Byte>)
    requires |bs| == 4
    ensures Bytes(Number(bs)) == bs
  {
    LittleOfValue(bs);
  }

  function Words(xs: seq<U32>): (bs: seq<Byte>)
    ensures |bs| == 4 * |xs|
  {
    if xs == [] then [] else Bytes(xs[0]) + Words(xs[1..])
  }

  function Numbers(bs: seq<Byte>): (xs: seq<U32>)
    requires |bs| % 4 == 0
    ensures |xs| == |bs| / 4
  {
    if bs == [] then [] else [Number(bs[..4])] + Numbers(bs[4..])
  }

  lemma {:induction false} NumbersOfWords(xs: seq<U32>)
    ensures Numbers(Words(xs)) == xs
  {
    if xs != [] {
      NumbersOfWords(xs[1..]);
      Halves(Bytes(xs[0]), Words(xs[1..]));
      NumberOfBytes(xs[0]);
      HeadAndTail(xs);
    }
  }

  lemma {:induction false} WordsOfNumbers(bs: seq<Byte>)
    requires |bs| % 4 == 0
    ensures Words(Numbers(bs)) == bs
  {
    if bs != [] {
      WordsOfNumbers(bs[4..]);
      BytesOfNumber(bs[..4]);
      Halves([Number(bs[..4])], Numbers(bs[4..]));
      assert bs == bs[..4] + bs[4..];
    }
  }

  // ---------------------------------------------------------------------------------------
  // Graphs
  // ---------------------------------------------------------------------------------------

  const MAGIC_0: U32 := 0x3ac7_3b4e
  const MAGIC_1: U32 := 0x445e_cf19

  function Magic(): (bs: seq<Byte>)
    ensures |bs| == 8
  {
    [0x4e, 0x3b, 0xc7, 0x3a, 0x19, 0xcf, 0x5e, 0x44]
  }

  lemma FourOf(x: U32)
    ensures Bytes(x) == [Low(x), Low(x / 0x100), Low(x / 0x100 / 0x100), Low(x / 0x100 / 0x100 / 0x100)]
  {
    assert Little(x / 0x100 / 0x100 / 0x100 / 0x100, 0) == [];
    assert Little(x / 0x100 / 0x100 / 0x100, 1) == [Low(x / 0x100 / 0x100 / 0x100)];
    assert Little(x / 0x100 / 0x100, 2) == [Low(x / 0x100 / 0x100), Low(x / 0x100 / 0x100 / 0x100)];
    assert Little(x / 0x100, 3) == [Low(x / 0x100), Low(x / 0x100 / 0x100), Low(x / 0x100 / 0x100 / 0x100)];
  }

  lemma MagicIsTwoWords()
    ensures Magic() == Bytes(MAGIC_0) + Bytes(MAGIC_1)
  {
    hide Bytes;
    FirstMagic();
    SecondMagic();
  }

  lemma FirstMagic()
    ensures Bytes(MAGIC_0) == [0x4e, 0x3b, 0xc7, 0x3a]
  {
    hide Bytes;
    FourOf(MAGIC_0);
  }

  lemma SecondMagic()
    ensures Bytes(MAGIC_1) == [0x19, 0xcf, 0x5e, 0x44]
  {
    hide Bytes;
    FourOf(MAGIC_1);
  }

  /** `fields` are the words of the header behind the magic number. */
  datatype Graph = Graph(fields: seq<U32>, pointers: seq<Byte>, functionData: seq<Byte>)

  /** The sizes in the header are those of the parts: function data first, the number of symbols third. */
  predicate WellFormed(g: Graph) {
    && |g.fields| == 8
    && |g.pointers| == PointerBytes(g.fields)
    && |g.functionData| == g.fields[0]
  }

  /** One pointer to the debug data, and one for each symbol. */
  function PointerBytes(fields: seq<U32>): nat
    requires |fields| == 8
  {
    POINTER_SIZE + fields[2] * POINTER_SIZE
  }

  function GraphBytes(g: Graph): seq<Byte> {
    Magic() + Words(g.fields) + g.pointers + g.functionData
  }

  // ---------------------------------------------------------------------------------------
  // Reading
  // ---------------------------------------------------------------------------------------

  datatype Result<T> = Failure | Success(value: T)

  predicate MagicFirst(rest: seq<Byte>) {
    && 8 <= |rest|
    && rest[0] == Magic()[0] && rest[1] == Magic()[1] && rest[2] == Magic()[2] && rest[3] == Magic()[3]
    && rest[4] == Magic()[4] && rest[5] == Magic()[5] && rest[6] == Magic()[6] && rest[7] == Magic()[7]
  }

  lemma MagicFirstIff(rest: seq<Byte>)
    ensures MagicFirst(rest) <==> 8 <= |rest| && rest[..8] == Magic()
  {
    if 8 <= |rest| {
      assert rest[..8] == [rest[0], rest[1], rest[2], rest[3], rest[4], rest[5], rest[6], rest[7]];
    }
  }

  /** The distance to the next magic number, or to the end. */
  function FindMagic(rest: seq<Byte>): (pos: nat)
    ensures pos <= |rest|
  {
    if rest == [] || MagicFirst(rest) then 0 else 1 + FindMagic(rest[1..])
  }

  lemma {:induction false} FoundMagic(rest: seq<Byte>)
    ensures FindMagic(rest) < |rest| ==> MagicFirst(rest[FindMagic(rest)..])
  {
    if rest != [] && !MagicFirst(rest) {
      FoundMagic(rest[1..]);
      DropTwice(rest, 1, FindMagic(rest[1..]));
    } else {
      WholeSlice(rest);
    }
  }

  function FieldsOf(rest: seq<Byte>): (fields: seq<U32>)
    requires HEADER_SIZE <= |rest|
    ensures |fields| == 8
  {
    Numbers(rest[8..HEADER_SIZE])
  }

  /** `consumeOneGraph` at a magic number: the graph and its size. */
  function ConsumeGraph(rest: seq<Byte>): (r: Result<(Graph, nat)>)
    ensures r.Success? ==> HEADER_SIZE <= r.value.1 <= |rest|
  {
    if HEADER_SIZE > |rest| then Failure
    else
      var fields := FieldsOf(rest);
      var pointersEnd := HEADER_SIZE + PointerBytes(fields);
      if pointersEnd + fields[0] > |rest| then Failure
      else Success((Graph(fields, rest[HEADER_SIZE..pointersEnd], rest[pointersEnd..pointersEnd + fields[0]]),
                    pointersEnd + fields[0]))
  }

  predicate AllZero(data: seq<Byte>) {
    forall i | 0 <= i < |data| :: data[i] == 0
  }

  /** The graphs of a section, and whether anything but zeros was skipped before one of them. */
  datatype Scan = Scan(graphs: seq<Graph>, warned: bool)

  /** One turn of the loop: the next graph, whether bytes were skipped that are not padding, and the bytes used up. */
  datatype Turn = NoMore | Broken | Next(graph: Graph, skipped: bool, size: nat)

  function TurnAt(rest: seq<Byte>): (turn: Turn)
    ensures turn.Next? ==> 0 < turn.size <= |rest|
  {
    var pos := FindMagic(rest);
    if pos == |rest| then NoMore
    else
      match ConsumeGraph(rest[pos..])
      case Failure => Broken
      case Success(graph) => Next(graph.0, !AllZero(rest[..pos]), pos + graph.1)
  }

  function ScanFrom(rest: seq<Byte>): Result<Scan>
    decreases |rest|
  {
    match TurnAt(rest)
    case NoMore => Success(Scan([], false))
    case Broken => Failure
    case Next(g, skipped, size) => Prepend([g], skipped, ScanFrom(rest[size..]))
  }

  function Prepend(graphs: seq<Graph>, warned: bool, r: Result<Scan>): Result<Scan> {
    if r.Failure? then Failure else Success(Scan(graphs + r.value.graphs, warned || r.value.warned))
  }

  lemma PrependMore(graphs: seq<Graph>, warned: bool, g: Graph, warned': bool, r: Result<Scan>)
    ensures Prepend(graphs, warned, Prepend([g], warned', r)) == Prepend(graphs + [g], warned || warned', r)
  {
    if r.Success? {
      Associative(graphs, [g], r.value.graphs);
    }
  }

  /** `all` is what a scan comes to that has found `graphs`, and has `rest` left. */
  ghost predicate ScannedTo(all: Result<Scan>, rest: seq<Byte>, graphs: seq<Graph>, warned: bool) {
    all == Prepend(graphs, warned, ScanFrom(rest))
  }

  // ---------------------------------------------------------------------------------------
  // Where the numbers of a graph are
  // ---------------------------------------------------------------------------------------

  /** Word number `k` behind position `at`. */
  function WordAt(data: seq<Byte>, at: nat, k: nat): U32
    requires at + 4 * k + 4 <= |data|
  {
    Number(data[at + 4 * k..at + 4 * k + 4])
  }

  /**
   A graph is at position `pos`: 40 bytes of header, of which the first 8 are the magic number and the rest are eight
   words, then 8 bytes for the pointer to the debug data and for each symbol, then the function data. The size of the
   function data is the word at byte 8, and the number of symbols the word at byte 16.
   */
  ghost predicate GraphAt(data: seq<Byte>, pos: nat, g: Graph) {
    && pos + 40 <= |data|
    && data[pos..pos + 8] == [0x4e, 0x3b, 0xc7, 0x3a, 0x19, 0xcf, 0x5e, 0x44]
    && |g.fields| == 8
    && (forall k | 0 <= k < 8 :: g.fields[k] == WordAt(data, pos + 8, k))
    && |g.functionData| == Number(data[pos + 8..pos + 12])
    && |g.pointers| == 8 + 8 * Number(data[pos + 16..pos + 20])
    && pos + 40 + |g.pointers| + |g.functionData| <= |data|
    && g.pointers == data[pos + 40..pos + 40 + |g.pointers|]
    && g.functionData == data[pos + 40 + |g.pointers|..pos + 40 + |g.pointers| + |g.functionData|]
  }

  lemma {:induction false} NumbersAt(bs: seq<Byte>, k: nat)
    requires |bs| % 4 == 0 && 4 * k + 4 <= |bs|
    ensures Numbers(bs)[k] == Number(bs[4 * k..4 * k + 4])
    decreases k
  {
    if k > 0 {
      NumbersAt(bs[4..], k - 1);
      assert bs[4..][4 * (k - 1)..4 * (k - 1) + 4] == bs[4 * k..4 * k + 4];
    }
  }

  lemma SliceOfSlice(data: seq<Byte>, a: nat, b: nat, i: nat, j: nat)
    requires a <= b <= |data| && i <= j <= b - a
    ensures data[a..b][i..j] == data[a + i..a + j]
  {
    var part := data[a..b];
    forall k | 0 <= k < j - i ensures part[i..j][k] == data[a + i..a + j][k] {
      assert part[i + k] == data[a + i + k];
    }
  }

  /** What is consumed at a magic number is at its start, with this size. */
  lemma ConsumedIsThere(rest: seq<Byte>)
    requires MagicFirst(rest) && ConsumeGraph(rest).Success?
    ensures
      var (g, size) := ConsumeGraph(rest).value;
      GraphAt(rest, 0, g) && size == 40 + |g.pointers| + |g.functionData|
  {
    var g, header := ConsumeGraph(rest).value.0, rest[8..HEADER_SIZE];
    MagicFirstIff(rest);
    assert g.fields == Numbers(header);
    forall k | 0 <= k < 8 ensures g.fields[k] == WordAt(rest, 8, k) {
      NumbersAt(header, k);
      SliceOfSlice(rest, 8, HEADER_SIZE, 4 * k, 4 * k + 4);
    }
    assert g.fields[0] == Number(rest[8..12]) && g.fields[2] == Number(rest[16..20]);
  }

  lemma ThereBehind(data: seq<Byte>, before: nat, pos: nat, g: Graph)
    requires before <= |data| && GraphAt(data[before..], pos, g)
    ensures GraphAt(data, before + pos, g)
  {
    var rest, n := data[before..], |data|;
    assert rest == data[before..n];
    var pointersEnd := pos + 40 + |g.pointers|;
    SliceOfSlice(data, before, n, pos, pos + 8);
    SliceOfSlice(data, before, n, pos + 8, pos + 12);
    SliceOfSlice(data, before, n, pos + 16, pos + 20);
    SliceOfSlice(data, before, n, pos + 40, pointersEnd);
    SliceOfSlice(data, before, n, pointersEnd, pointersEnd + |g.functionData|);
    forall k | 0 <= k < 8 ensures g.fields[k] == WordAt(data, before + pos + 8, k) {
      SliceOfSlice(data, before, n, pos + 8 + 4 * k, pos + 8 + 4 * k + 4);
    }
  }

  /** Every graph that a scan finds is somewhere in the data. */
  lemma {:induction false} GraphsAreThere(rest: seq<Byte>)
    ensures ScanFrom(rest).Success? ==>
      forall g | g in ScanFrom(rest).value.graphs :: exists pos :: GraphAt(rest, pos, g)
    decreases |rest|
  {
    hide GraphAt, ConsumeGraph, MagicFirst;
    var turn := TurnAt(rest);
    if turn.Next? && ScanFrom(rest).Success? {
      var before := FindMagic(rest);
      FoundMagic(rest);
      ConsumedIsThere(rest[before..]);
      ThereBehind(rest, before, 0, turn.graph);
      GraphsAreThere(rest[turn.size..]);
      forall g | g in ScanFrom(rest).value.graphs ensures exists pos :: GraphAt(rest, pos, g) {
        if g != turn.graph {
          var pos :| GraphAt(rest[turn.size..], pos, g);
          ThereBehind(rest, turn.size, pos, g);
        }
      }
    }
  }

  /** The loop of `runOnSection`. */
  method RunOnSection(data: seq<Byte>) returns (r: Result<Scan>)
    ensures r == ScanFrom(data)
    ensures r.Success? ==> forall g | g in r.value.graphs :: exists pos :: GraphAt(data, pos, g)
  {
    hide ConsumeGraph, ScanFrom, MagicFirst;
    var cursor := 0;
    var graphs: seq<Graph> := [];
    var warned := false;
    ghost var all, rest := ScanFrom(data), data;
    WholeSlice(data);
    PrependNothing(all);
    while cursor < |data|
      invariant cursor <= |data| && rest == data[cursor..]
      invariant ScannedTo(all, rest, graphs, warned)
      decreases |data| - cursor
    {
      NextTurn(all, rest, graphs, warned);
      match TurnAt(data[cursor..]) {
        case NoMore =>
          break;
        case Broken =>
          return Failure;
        case Next(graph, skipped, size) =>
          warned := warned || skipped;
          graphs := graphs + [graph];
          DropTwice(data, cursor, size);
          cursor := cursor + size;
          rest := rest[size..];
      }
    }
    AllScanned(all, rest, graphs, warned);
    GraphsAreThere(data);
    return Success(Scan(graphs, warned));
  }

  lemma AllScanned(all: Result<Scan>, rest: seq<Byte>, graphs: seq<Graph>, warned: bool)
    requires ScannedTo(all, rest, graphs, warned) && TurnAt(rest).NoMore?
    ensures all == Success(Scan(graphs, warned))
  {
    EmptyUnit(graphs);
  }

  lemma NextTurn(all: Result<Scan>, rest: seq<Byte>, graphs: seq<Graph>, warned: bool)
    requires ScannedTo(all, rest, graphs, warned)
    ensures match TurnAt(rest)
      case NoMore => all == Success(Scan(graphs, warned))
      case Broken => all == Failure
      case Next(g, skipped, size) => ScannedTo(all, rest[size..], graphs + [g], warned || skipped)
  {
    match TurnAt(rest) {
      case NoMore => EmptyUnit(graphs);
      case Broken =>
      case Next(g, skipped, size) => PrependMore(graphs, warned, g, skipped, ScanFrom(rest[size..]));
    }
  }

  lemma PrependNothing(r: Result<Scan>)
    ensures Prepend([], false, r) == r
  {
    if r.Success? {
      EmptyUnit(r.value.graphs);
    }
  }

  // ---------------------------------------------------------------------------------------
  // What is joined is split again
  // ---------------------------------------------------------------------------------------

  function Zeros(n: nat): (z: seq<Byte>)
    ensures |z| == n && AllZero(z)
  {
    seq(n, _ => 0)
  }

  /** The graphs, each behind so many zeros, and the rest of the section. */
  function Joined(pads: seq<nat>, graphs: seq<Graph>, tail: seq<Byte>): seq<Byte>
    requires |pads| == |graphs|
  {
    if graphs == [] then tail else Zeros(pads[0]) + GraphBytes(graphs[0]) + Joined(pads[1..], graphs[1..], tail)
  }

  predicate NoMagic(rest: seq<Byte>) {
    FindMagic(rest) == |rest|
  }

  predicate AllWellFormed(graphs: seq<Graph>) {
    forall i {:trigger WellFormed(graphs[i])} | 0 <= i < |graphs| :: WellFormed(graphs[i])
  }

  /** No match starts in zeros, so the padding before a graph is skipped exactly. */
  lemma {:induction false} FindBehindZeros(pad: nat, rest: seq<Byte>)
    requires MagicFirst(rest)
    ensures FindMagic(Zeros(pad) + rest) == pad
  {
    if pad == 0 {
      assert Zeros(0) + rest == rest;
    } else {
      FindBehindZeros(pad - 1, rest);
      var data := Zeros(pad) + rest;
      assert data[1..] == Zeros(pad - 1) + rest;
      assert data[0] == 0;
      NoMatchAtZero(data);
    }
  }

  lemma NoMatchAtZero(rest: seq<Byte>)
    requires rest != [] && rest[0] == 0
    ensures !MagicFirst(rest)
  {
  }

  // ---------------------------------------------------------------------------------------
  // One graph
  // ---------------------------------------------------------------------------------------

  /** Reading at a graph gives the graph and its size. */
  lemma ConsumeWritten(g: Graph, behind: seq<Byte>)
    requires WellFormed(g)
    ensures MagicFirst(GraphBytes(g) + behind)
    ensures ConsumeGraph(GraphBytes(g) + behind) == Success((g, |GraphBytes(g)|))
  {
    NumbersOfWords(g.fields);
    Parts(Magic(), Words(g.fields), g.pointers, g.functionData);
    var rest, size, pointersEnd := GraphBytes(g) + behind, |GraphBytes(g)|, HEADER_SIZE + |g.pointers|;
    SliceOfPrefix(GraphBytes(g), behind, 0, 8);
    MagicFirstIff(GraphBytes(g) + behind);
    SliceOfPrefix(GraphBytes(g), behind, 8, HEADER_SIZE);
    SliceOfPrefix(GraphBytes(g), behind, HEADER_SIZE, pointersEnd);
    SliceOfPrefix(GraphBytes(g), behind, pointersEnd, size);
    assert FieldsOf(rest) == g.fields;
  }

  /** What is read is a graph that was written there. */
  lemma ConsumedIsWritten(rest: seq<Byte>)
    requires MagicFirst(rest) && ConsumeGraph(rest).Success?
    ensures
      var (g, size) := ConsumeGraph(rest).value;
      WellFormed(g) && rest[..size] == GraphBytes(g)
  {
    var (g, size) := ConsumeGraph(rest).value;
    MagicFirstIff(rest);
    WordsOfNumbers(rest[8..HEADER_SIZE]);
    var pointersEnd := size - |g.functionData|;
    FourParts(rest[..size], 8, HEADER_SIZE, pointersEnd);
    SliceParts(rest, size, pointersEnd);
  }

  lemma SliceParts(rest: seq<Byte>, size: nat, pointersEnd: nat)
    requires HEADER_SIZE <= pointersEnd <= size <= |rest|
    ensures rest[..size][..8] == rest[..8] && rest[..size][8..HEADER_SIZE] == rest[8..HEADER_SIZE]
    ensures rest[..size][HEADER_SIZE..pointersEnd] == rest[HEADER_SIZE..pointersEnd]
    ensures rest[..size][pointersEnd..] == rest[pointersEnd..size]
  {
  }

  // ---------------------------------------------------------------------------------------
  // A whole section
  // ---------------------------------------------------------------------------------------

  /** The section is these graphs, joined by zeros, and a rest without magic number. */
  ghost predicate IsJoin(rest: seq<Byte>, pads: seq<nat>, graphs: seq<Graph>, tail: seq<Byte>) {
    && |pads| == |graphs| && AllWellFormed(graphs) && NoMagic(tail)
    && rest == Joined(pads, graphs, tail)
  }

  /** The scan finds these graphs, and gives no warning. */
  ghost predicate Finds(rest: seq<Byte>, graphs: seq<Graph>) {
    ScanFrom(rest) == Success(Scan(graphs, false))
  }

  /** A section of graphs joined by zeros is split into exactly these graphs. */
  lemma {:induction false} JoinedIsSplit(rest: seq<Byte>, pads: seq<nat>, graphs: seq<Graph>, tail: seq<Byte>)
    requires IsJoin(rest, pads, graphs, tail)
    ensures Finds(rest, graphs)
    decreases |graphs|
  {
    if graphs != [] {
      var behind := Joined(pads[1..], graphs[1..], tail);
      assert WellFormed(graphs[0]);
      AllButFirst(graphs);
      JoinedIsSplit(behind, pads[1..], graphs[1..], tail);
      FirstGraph(pads[0], graphs[0], behind);
      HeadAndTail(graphs);
    }
  }

  lemma AllButFirst(graphs: seq<Graph>)
    requires graphs != [] && AllWellFormed(graphs)
    ensures AllWellFormed(graphs[1..])
  {
    forall i | 0 <= i < |graphs| - 1 ensures WellFormed(graphs[1..][i]) {
      assert WellFormed(graphs[i + 1]);
    }
  }

  lemma FirstGraph(pad: nat, g: Graph, behind: seq<Byte>)
    requires WellFormed(g)
    ensures ScanFrom(Zeros(pad) + GraphBytes(g) + behind) == Prepend([g], false, ScanFrom(behind))
  {
    var rest := GraphBytes(g) + behind;
    Associative(Zeros(pad), GraphBytes(g), behind);
    ConsumeWritten(g, behind);
    FindBehindZeros(pad, rest);
    Halves(Zeros(pad), rest);
    Halves(GraphBytes(g), behind);
    DropTwice(Zeros(pad) + rest, pad, |GraphBytes(g)|);
  }

  /** A scan that finds graphs without a warning is of a section that joins them. */
  lemma {:induction false} SplitIsJoined(rest: seq<Byte>, graphs: seq<Graph>)
    returns (pads: seq<nat>, tail: seq<Byte>)
    requires Finds(rest, graphs)
    ensures IsJoin(rest, pads, graphs, tail)
    decreases |rest|
  {
    if TurnAt(rest).NoMore? {
      pads, tail := [], rest;
    } else {
      FirstTurn(rest, graphs);
      var pos, size := FindMagic(rest), TurnAt(rest).size;
      var pads', tail' := SplitIsJoined(rest[size..], graphs[1..]);
      pads, tail := [pos] + pads', tail';
      TurnIsWritten(rest);
      JoinOneMore(rest, pos, size - pos, pads', graphs, tail');
    }
  }

  lemma TurnIsWritten(rest: seq<Byte>)
    requires TurnAt(rest).Next? && !TurnAt(rest).skipped
    ensures FindMagic(rest) < TurnAt(rest).size && AllZero(rest[..FindMagic(rest)])
    ensures WellFormed(TurnAt(rest).graph)
    ensures rest[FindMagic(rest)..][..TurnAt(rest).size - FindMagic(rest)] == GraphBytes(TurnAt(rest).graph)
  {
    FoundMagic(rest);
    ConsumedIsWritten(rest[FindMagic(rest)..]);
  }

  lemma FirstTurn(rest: seq<Byte>, graphs: seq<Graph>)
    requires Finds(rest, graphs) && !TurnAt(rest).NoMore?
    ensures TurnAt(rest).Next? && !TurnAt(rest).skipped && graphs != [] && graphs[0] == TurnAt(rest).graph
    ensures Finds(rest[TurnAt(rest).size..], graphs[1..])
  {
    match TurnAt(rest) {
      case NoMore =>
      case Broken =>
      case Next(g, skipped, size) => FirstOfScan(g, skipped, ScanFrom(rest[size..]), graphs);
    }
  }

  lemma FirstOfScan(g: Graph, warned: bool, r: Result<Scan>, graphs: seq<Graph>)
    requires Prepend([g], warned, r) == Success(Scan(graphs, false))
    ensures !warned && graphs != [] && graphs[0] == g && r == Success(Scan(graphs[1..], false))
  {
    Halves([g], r.value.graphs);
  }

  lemma JoinOneMore(rest: seq<Byte>, pos: nat, size: nat, pads: seq<nat>, graphs: seq<Graph>, tail: seq<Byte>)
    requires pos + size <= |rest| && graphs != [] && WellFormed(graphs[0])
    requires AllZero(rest[..pos]) && rest[pos..][..size] == GraphBytes(graphs[0])
    requires IsJoin(rest[pos + size..], pads, graphs[1..], tail)
    ensures IsJoin(rest, [pos] + pads, graphs, tail)
  {
    forall i | 0 <= i < |graphs| ensures WellFormed(graphs[i]) {
      assert i > 0 ==> WellFormed(graphs[1..][i - 1]);
    }
    Halves([pos], pads);
    assert rest[..pos] == Zeros(pos);
    ThreeParts(rest, pos, size);
  }

  lemma ThreeParts(rest: seq<Byte>, pos: nat, size: nat)
    requires pos + size <= |rest|
    ensures rest == rest[..pos] + rest[pos..][..size] + rest[pos + size..]
  {
  }
}
