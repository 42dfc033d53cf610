/**
 What was written about the functions of a file is what the reader hands out about them.
 */
module EdgeRoundTrip {
  import opened EdgeEncoding
  import opened EdgeReader
  import opened EdgeStream
  import opened EdgeWriter
  import opened MachineWords
  import opened Sequences
  import opened StringTable

  // ---------------------------------------------------------------------------------------
  // Edges
  // ---------------------------------------------------------------------------------------

  function RelocateEdge(e: Edge, symbols: seq<nat>): Edge
    requires e.to.symbol < |symbols| && e.from.symbol < |symbols|
  {
    Edge(Relocate(e.to, symbols), Relocate(e.from, symbols), e.idx)
  }

  predicate InRange(es: seq<Edge>, numSymbols: nat) {
    forall i | 0 <= i < |es| :: es[i].to.symbol < numSymbols && es[i].from.symbol < numSymbols
  }

  function RelocateEdges(es: seq<Edge>, symbols: seq<nat>): (r: seq<Edge>)
    requires InRange(es, |symbols|)
    ensures |r| == |es|
  {
    if es == [] then [] else RelocateEdges(es[..|es| - 1], symbols) + [RelocateEdge(es[|es| - 1], symbols)]
  }

  /** The edges of one kind, as a multiset: what the reader's visits see of what the writer was given. */
  ghost predicate SeesEdges(span: seq<U32>, kind: nat, function_: nat, es: seq<Edge>, symbols: seq<nat>)
    requires InRange(es, |symbols|)
  {
    var out := DecodeEdges(EdgesOf(Arity(kind), span, 0), function_, symbols);
    out.Some? && multiset(out.value) == multiset(RelocateEdges(es, symbols))
  }

  /** The addresses the linker gave to the symbols. */
  predicate Linked(symbols: seq<nat>) {
    |symbols| < TWO_31 && forall i | 0 <= i < |symbols| :: Packable(Symbol(symbols[i]))
  }

  lemma OwnEdgeRoundTrip(e: Edge, symbol: nat, numLocals: nat, symbols: seq<nat>)
    requires Linked(symbols) && EdgeOk(e, symbol, numLocals, |symbols|) && symbol < |symbols| && numLocals < TWO_16
    ensures DecodeEdge(EncodeEdge(e), symbols[symbol], symbols) == Some(RelocateEdge(e, symbols))
  {
    assert Packable(Symbol(symbols[symbol]));
    assert Packable(Symbol(symbols[e.to.symbol])) && Packable(Symbol(symbols[e.from.symbol]));
    NodeRoundTrip(e.to, symbols[symbol], symbols);
    NodeRoundTrip(e.from, symbols[symbol], symbols);
  }

  /** Decoding the encoded edges in the order they were given. */
  lemma {:induction false} GivenOrder(es: seq<Edge>, kind: nat, symbol: nat, numLocals: nat, symbols: seq<nat>)
    requires Linked(symbols) && KindOk(kind, es, symbol, numLocals, |symbols|) && symbol < |symbols|
    requires numLocals < TWO_16
    ensures InRange(es, |symbols|)
    ensures DecodeEdges(EncodeEdges(es), symbols[symbol], symbols) == Some(RelocateEdges(es, symbols))
  {
    if es != [] {
      var init, last := es[..|es| - 1], es[|es| - 1];
      GivenOrder(init, kind, symbol, numLocals, symbols);
      OwnEdgeRoundTrip(last, symbol, numLocals, symbols);
      DecodeAppend(EncodeEdges(init), [EncodeEdge(last)], symbols[symbol], symbols);
      DecodeSingle(EncodeEdge(last), symbols[symbol], symbols);
    }
  }

  lemma {:induction false} DecodeAppend(a: seq<RawEdge>, b: seq<RawEdge>, function_: nat, symbols: seq<nat>)
    ensures
      var x, y := DecodeEdges(a, function_, symbols), DecodeEdges(b, function_, symbols);
      DecodeEdges(a + b, function_, symbols) == if x.Some? && y.Some? then Some(x.value + y.value) else None
  {
    var y := DecodeEdges(b, function_, symbols);
    if a == [] {
      assert a + b == b;
      if y.Some? {
        EmptyUnit(y.value);
      }
    } else {
      DecodeAppend(a[1..], b, function_, symbols);
      assert (a + b)[1..] == a[1..] + b;
      var e, x := DecodeEdge(a[0], function_, symbols), DecodeEdges(a[1..], function_, symbols);
      if e.Some? && x.Some? && y.Some? {
        Associative([e.value], x.value, y.value);
      }
    }
  }

  lemma DecodeSingle(x: RawEdge, function_: nat, symbols: seq<nat>)
    ensures DecodeEdges([x], function_, symbols) ==
      if DecodeEdge(x, function_, symbols).Some? then Some([DecodeEdge(x, function_, symbols).value]) else None
  {
    assert [x][1..] == [];
    var e := DecodeEdge(x, function_, symbols);
    if e.Some? {
      EmptyUnit([e.value]);
    }
  }

  /** A permutation decodes to a permutation. */
  lemma {:induction false} DecodePermuted(a: seq<RawEdge>, b: seq<RawEdge>, function_: nat, symbols: seq<nat>)
    requires multiset(a) == multiset(b) && DecodeEdges(b, function_, symbols).Some?
    ensures DecodeEdges(a, function_, symbols).Some?
    ensures multiset(DecodeEdges(a, function_, symbols).value) == multiset(DecodeEdges(b, function_, symbols).value)
  {
    if a == [] {
      assert |multiset(b)| == 0;
    } else {
      var i := IndexOf(b, a[0], a);
      var before, behind := b[..i], b[i + 1..];
      TakeOut(a, b, i);
      DecodeAround(before, a[0], behind, function_, symbols);
      DecodePermuted(a[1..], before + behind, function_, symbols);
      var e, rest := DecodeEdge(a[0], function_, symbols), DecodeEdges(a[1..], function_, symbols);
      assert multiset([e.value] + rest.value) == multiset{e.value} + multiset(rest.value);
    }
  }

  lemma IndexOf(b: seq<RawEdge>, x: RawEdge, a: seq<RawEdge>) returns (i: nat)
    requires a != [] && x == a[0] && multiset(a) == multiset(b)
    ensures i < |b| && b[i] == x
  {
    assert x in multiset(a);
    assert x in b;
    i :| i < |b| && b[i] == x;
  }

  lemma TakeOut(a: seq<RawEdge>, b: seq<RawEdge>, i: nat)
    requires a != [] && i < |b| && b[i] == a[0] && multiset(a) == multiset(b)
    ensures b == b[..i] + [b[i]] + b[i + 1..]
    ensures multiset(a[1..]) == multiset(b[..i] + b[i + 1..])
  {
    assert a == [a[0]] + a[1..];
    assert b == b[..i] + [b[i]] + b[i + 1..];
    assert multiset(b) == multiset(b[..i]) + multiset{b[i]} + multiset(b[i + 1..]);
    assert multiset(a) == multiset{a[0]} + multiset(a[1..]);
    assert multiset(b[..i] + b[i + 1..]) == multiset(b) - multiset{b[i]};
    assert multiset(a[1..]) == multiset(a) - multiset{a[0]};
  }

  lemma DecodeAround(before: seq<RawEdge>, x: RawEdge, behind: seq<RawEdge>, function_: nat, symbols: seq<nat>)
    requires DecodeEdges(before + [x] + behind, function_, symbols).Some?
    ensures DecodeEdge(x, function_, symbols).Some? && DecodeEdges(before + behind, function_, symbols).Some?
    ensures multiset(DecodeEdges(before + [x] + behind, function_, symbols).value)
      == multiset{DecodeEdge(x, function_, symbols).value}
        + multiset(DecodeEdges(before + behind, function_, symbols).value)
  {
    DecodeAppend(before + [x], behind, function_, symbols);
    DecodeAppend(before, [x], function_, symbols);
    DecodeAppend(before, behind, function_, symbols);
    DecodeSingle(x, function_, symbols);
  }

  /** Whatever the sort did, the visits see the edges that were given. */
  lemma SpanSeesEdges(
      span: seq<U32>, kind: nat, raw: seq<RawEdge>, es: seq<Edge>, symbol: nat, numLocals: nat, symbols: seq<nat>)
    requires SpanHolds(span, kind, raw) && multiset(raw) == multiset(EncodeEdges(es))
    requires Linked(symbols) && KindOk(kind, es, symbol, numLocals, |symbols|) && symbol < |symbols|
    requires numLocals < TWO_16
    ensures InRange(es, |symbols|) && SeesEdges(span, kind, symbols[symbol], es, symbols)
  {
    GivenOrder(es, kind, symbol, numLocals, symbols);
    DecodePermuted(raw, EncodeEdges(es), symbols[symbol], symbols);
  }

  // ---------------------------------------------------------------------------------------
  // Names
  // ---------------------------------------------------------------------------------------

  /** The names of the locals of the functions from `j` on. */
  function NamesFrom(gs: seq<Graph>, j: nat): seq<string>
    requires j <= |gs|
    decreases |gs| - j
  {
    if j == |gs| then [] else gs[j].names + NamesFrom(gs, j + 1)
  }

  lemma {:induction false} NamesSplit(gs: seq<Graph>, j: nat)
    requires j <= |gs|
    ensures AllNames(gs[..j]) + NamesFrom(gs, j) == AllNames(gs)
    decreases |gs| - j
  {
    if j == |gs| {
      WholeSlice(gs);
      EmptyUnit(AllNames(gs));
    } else {
      NamesSplit(gs, j + 1);
      assert gs[..j + 1][..j] == gs[..j];
      Associative(AllNames(gs[..j]), gs[j].names, NamesFrom(gs, j + 1));
    }
  }

  lemma {:induction false} NameAt(indices: seq<nat>, strings: seq<string>, i: nat)
    requires InTable(indices, |strings|) && i < |indices|
    ensures |NamesOf(indices, strings)| == |indices| && NamesOf(indices, strings)[i] == strings[indices[i]]
    decreases |indices|
  {
    var init := indices[..|indices| - 1];
    if i < |init| {
      NameAt(init, strings, i);
    } else if init != [] {
      NameAt(init, strings, 0);
    }
  }

  /** Names are the names of the indices, one by one. */
  ghost predicate NamedBy(indices: seq<nat>, strings: seq<string>, names: seq<string>) {
    && |indices| == |names|
    && forall i | 0 <= i < |indices| :: indices[i] < |strings| && strings[indices[i]] == names[i]
  }

  lemma NamedByNamesOf(indices: seq<nat>, strings: seq<string>)
    requires InTable(indices, |strings|)
    ensures NamedBy(indices, strings, NamesOf(indices, strings))
  {
    forall i | 0 <= i < |indices|
      ensures |NamesOf(indices, strings)| == |indices| && NamesOf(indices, strings)[i] == strings[indices[i]]
    {
      NameAt(indices, strings, i);
    }
  }

  ghost predicate StringsFound(d: Debug, strings: seq<string>) {
    forall i {:trigger StringOf(d, i)} | 0 <= i < |strings| :: StringOf(d, i) == Some(strings[i])
  }

  /** The debug data knows the strings, and the names of the locals in view if they were recorded. */
  ghost predicate DebugFits(d: Debug, strings: seq<string>, names: seq<string>, named: bool) {
    && StringsFound(d, strings)
    && if named then d.locals.Some? && NamedBy(d.locals.value, strings, names) else d.locals.None?
  }

  lemma SplitFits(d: Debug, strings: seq<string>, a: seq<string>, b: seq<string>, named: bool)
    requires DebugFits(d, strings, a + b, named)
    ensures CanSplit(d, |a|)
    ensures DebugFits(Before(d, |a|), strings, a, named) && DebugFits(Behind(d, |a|), strings, b, named)
  {
    StringsStay(d, strings, Before(d, |a|));
    StringsStay(d, strings, Behind(d, |a|));
  }

  lemma StringsStay(d: Debug, strings: seq<string>, d': Debug)
    requires StringsFound(d, strings) && d'.blob == d.blob && d'.offsets == d.offsets
    ensures StringsFound(d', strings)
  {
    forall i | 0 <= i < |strings| ensures StringOf(d', i) == Some(strings[i]) {
      assert StringOf(d, i) == Some(strings[i]);
    }
  }

  // ---------------------------------------------------------------------------------------
  // Functions
  // ---------------------------------------------------------------------------------------

  lemma {:induction false} HereFits(
      d: Debug, rs: seq<Record>, gs: seq<Graph>, strings: seq<string>, named: bool, j: nat)
    requires RecordsOf(rs, gs, strings) && j <= |rs| && DebugFits(d, strings, NamesFrom(gs, 0), named)
    ensures BehindAll(d, rs[..j]).Some? && DebugFits(BehindAll(d, rs[..j]).value, strings, NamesFrom(gs, j), named)
  {
    if j > 0 {
      HereFits(d, rs, gs, strings, named, j - 1);
      var here := BehindAll(d, rs[..j - 1]).value;
      assert RecordOf(rs[j - 1], gs[j - 1], strings);
      SplitFits(here, strings, gs[j - 1].names, NamesFrom(gs, j), named);
      BehindOneMore(d, rs[..j - 1], rs[j - 1]);
      assert rs[..j] == rs[..j - 1] + [rs[j - 1]];
    }
  }

  lemma AcceptsHere(
      here: Debug, r: Record, g: Graph, strings: seq<string>, names: seq<string>, named: bool, symbols: seq<nat>)
    requires DebugFits(here, strings, g.names + names, named) && RecordOf(r, g, strings)
    requires Linked(symbols) && g.symbol < |symbols|
    ensures Accepts(r, here, symbols)
    ensures StringOf(here, r.component) == Some(g.component) && StringOf(here, r.version) == Some(g.version)
  {
    SplitFits(here, strings, g.names, names, named);
  }

  lemma {:induction false} ReadAllFrom(
      d: Debug, rs: seq<Record>, gs: seq<Graph>, strings: seq<string>, named: bool, symbols: seq<nat>, j: nat)
    requires AllWritable(rs) && RecordsOf(rs, gs, strings) && GraphsOk(gs, |symbols|) && Linked(symbols)
    requires j <= |rs| && DebugFits(d, strings, NamesFrom(gs, 0), named) && BehindAll(d, rs[..j]).Some?
    ensures ReadAll(|rs| - j, StreamWords(rs[j..]), BehindAll(d, rs[..j]).value, symbols) == AllOrNothing(rs[j..])
    decreases |rs| - j
  {
    hide *;
    if j < |rs| {
      AcceptsNext(d, rs, gs, strings, named, symbols, j);
      ReadAllFrom(d, rs, gs, strings, named, symbols, j + 1);
      FirstOfAll(rs, j, BehindAll(d, rs[..j]).value, symbols);
    } else {
      NoneOfAll(BehindAll(d, rs[..j]).value, symbols);
      assert rs[j..] == [];
    }
  }

  lemma NoneOfAll(here: Debug, symbols: seq<nat>)
    ensures AllWritable([]) && ReadAll(0, StreamWords([]), here, symbols) == AllOrNothing([])
  {
  }

  /** The records, if none of them is rejected for its count of allocas. */
  function AllOrNothing(rs: seq<Record>): Parsed<seq<Record>> {
    if AllocasFit(rs) then Read(rs, []) else Fail
  }

  lemma AcceptsNext(
      d: Debug, rs: seq<Record>, gs: seq<Graph>, strings: seq<string>, named: bool, symbols: seq<nat>, j: nat)
    requires RecordsOf(rs, gs, strings) && GraphsOk(gs, |symbols|) && Linked(symbols)
    requires j < |rs| && DebugFits(d, strings, NamesFrom(gs, 0), named)
    ensures BehindAll(d, rs[..j]).Some? && Accepts(rs[j], BehindAll(d, rs[..j]).value, symbols)
    ensures BehindAll(d, rs[..j + 1]) == Some(Behind(BehindAll(d, rs[..j]).value, rs[j].numLocals))
  {
    HereFits(d, rs, gs, strings, named, j);
    assert RecordOf(rs[j], gs[j], strings) && GraphOk(gs[j], |symbols|);
    AcceptsHere(BehindAll(d, rs[..j]).value, rs[j], gs[j], strings, NamesFrom(gs, j + 1), named, symbols);
    assert rs[..j + 1] == rs[..j] + [rs[j]];
    BehindOneMore(d, rs[..j], rs[j]);
  }

  lemma FirstOfAll(rs: seq<Record>, j: nat, here: Debug, symbols: seq<nat>)
    requires AllWritable(rs) && j < |rs| && Accepts(rs[j], here, symbols)
    requires ReadAll(|rs| - (j + 1), StreamWords(rs[j + 1..]), Behind(here, rs[j].numLocals), symbols)
      == AllOrNothing(rs[j + 1..])
    ensures ReadAll(|rs| - j, StreamWords(rs[j..]), here, symbols) == AllOrNothing(rs[j..])
  {
    assert rs[j..][0] == rs[j] && rs[j..][1..] == rs[j + 1..];
    assert rs[j] in rs;
    RecordRoundTrip(rs[j], StreamWords(rs[j + 1..]));
    SliceHead(rs, j);
    AllocasFitCons(rs[j], rs[j + 1..]);
    if rs[j].numAllocas <= rs[j].numLocals {
      OneBefore(|rs| - j, StreamWords(rs[j..]), here, symbols, rs[j], StreamWords(rs[j + 1..]));
    }
  }

  lemma OneBefore(count: nat, ws: seq<U32>, here: Debug, symbols: seq<nat>, r: Record, rest: seq<U32>)
    requires count > 0 && ReadRecord(ws) == Read(r, rest) && Accepts(r, here, symbols)
    ensures ReadAll(count, ws, here, symbols)
      == PrependRecords([r], ReadAll(count - 1, rest, Behind(here, r.numLocals), symbols))
  {
  }

  /** What the reader hands out is what the writer was told. */
  ghost predicate Faithful(info: FunctionInfo, g: Graph, symbols: seq<nat>, named: bool)
    requires g.symbol < |symbols|
  {
    && info.function_ == symbols[g.symbol]
    && info.numLocals == |g.names| && info.numAllocas == g.numAllocas
    && SbomShown(info.sbom, g.component, g.version)
    && NamesShown(info.debug, g.names, named)
    && EdgesShown(info.edges, g.edges, info.function_, symbols)
  }

  ghost predicate NamesShown(d: Debug, names: seq<string>, named: bool) {
    if !named then d.locals.None?
    else
      && d.locals.Some? && |d.locals.value| == |names|
      && forall i {:trigger LocalNameOf(d, i)} | 0 <= i < |names| :: LocalNameOf(d, i) == Some(names[i])
  }

  ghost predicate EdgesShown(spans: seq<seq<U32>>, kinds: seq<seq<Edge>>, function_: nat, symbols: seq<nat>) {
    && |spans| == |kinds| == KINDS
    && forall k {:trigger WholeEdges(Arity(k), spans[k])} | 0 <= k < KINDS ::
         && WholeEdges(Arity(k), spans[k]) && InRange(kinds[k], |symbols|)
         && SeesEdges(spans[k], k, function_, kinds[k], symbols)
  }

  lemma NamesAreShown(d: Debug, strings: seq<string>, names: seq<string>, named: bool)
    requires DebugFits(d, strings, names, named)
    ensures NamesShown(d, names, named)
  {
    if named {
      forall i | 0 <= i < |names| ensures LocalNameOf(d, i) == Some(names[i]) {
        assert StringOf(d, d.locals.value[i]) == Some(strings[d.locals.value[i]]);
      }
    }
  }

  lemma EdgesAreShown(info: FunctionInfo, r: Record, g: Graph, strings: seq<string>, symbols: seq<nat>)
    requires SpansHold(info.edges, r.edges) && SameEdges(r.edges, g.edges) && GraphOk(g, |symbols|) && Linked(symbols)
    requires info.function_ == symbols[g.symbol]
    ensures EdgesShown(info.edges, g.edges, info.function_, symbols)
  {
    forall k | 0 <= k < KINDS
      ensures WholeEdges(Arity(k), info.edges[k]) && InRange(g.edges[k], |symbols|)
      ensures SeesEdges(info.edges[k], k, info.function_, g.edges[k], symbols)
    {
      assert SpanHolds(info.edges[k], k, r.edges[k]);
      assert KindOk(k, g.edges[k], g.symbol, |g.names|, |symbols|);
      SpanSeesEdges(info.edges[k], k, r.edges[k], g.edges[k], g.symbol, |g.names|, symbols);
    }
  }

  lemma HandedOutIsFaithful(
      info: FunctionInfo, d: Debug, rs: seq<Record>, gs: seq<Graph>, strings: seq<string>, named: bool,
      symbols: seq<nat>, j: nat)
    requires RecordsOf(rs, gs, strings) && GraphsOk(gs, |symbols|) && Linked(symbols) && j < |rs|
    requires DebugFits(d, strings, NamesFrom(gs, 0), named) && HandedOut(info, rs, j, d, symbols)
    ensures gs[j].symbol < |symbols| && Faithful(info, gs[j], symbols, named)
  {
    var g, here := gs[j], BehindAll(d, rs[..j]).value;
    HereFits(d, rs, gs, strings, named, j);
    assert RecordOf(rs[j], g, strings) && GraphOk(g, |symbols|);
    AcceptsHere(here, rs[j], g, strings, NamesFrom(gs, j + 1), named, symbols);
    SplitFits(here, strings, g.names, NamesFrom(gs, j + 1), named);
    NamesAreShown(info.debug, strings, g.names, named);
    EdgesAreShown(info, rs[j], g, strings, symbols);
  }

  // ---------------------------------------------------------------------------------------
  // Writing and reading a file
  // ---------------------------------------------------------------------------------------

  /** Reading the words of the records succeeds exactly when no function has more allocas than locals. */
  lemma ReadAllIff(
      d: Debug, rs: seq<Record>, gs: seq<Graph>, strings: seq<string>, named: bool, symbols: seq<nat>, ws: seq<U32>)
    requires HoldsStream(ws, rs) && RecordsOf(rs, gs, strings) && GraphsOk(gs, |symbols|) && Linked(symbols)
    requires DebugFits(d, strings, NamesFrom(gs, 0), named)
    ensures ReadAll(|rs|, ws, d, symbols) == AllOrNothing(rs)
  {
    HoldsStreamIff(ws, rs);
    ReadAllFrom(d, rs, gs, strings, named, symbols, 0);
    WholeSlice(rs);
  }

  ghost predicate AllocasOk(gs: seq<Graph>) {
    forall j {:trigger gs[j]} | 0 <= j < |gs| :: gs[j].numAllocas <= |gs[j].names|
  }

  lemma AllocasOkIff(rs: seq<Record>, gs: seq<Graph>, strings: seq<string>)
    requires RecordsOf(rs, gs, strings)
    ensures AllocasFit(rs) <==> AllocasOk(gs)
  {
    forall j | 0 <= j < |rs| ensures rs[j].numAllocas == gs[j].numAllocas && rs[j].numLocals == |gs[j].names| {
      assert RecordOf(rs[j], gs[j], strings);
    }
    if AllocasFit(rs) {
      forall j | 0 <= j < |gs| ensures gs[j].numAllocas <= |gs[j].names| {
        assert rs[j] in rs;
      }
    }
  }

  /** The debug data of the file that a writer makes. */
  lemma WrittenDebugFits<G(!new)>(gw: GraphWriter<G>, d: Debug, offsets: seq<nat>)
    requires gw.Valid() && !gw.hasActiveFunctionWriter && FoundIn(gw.stringBlob, gw.strings, offsets)
    requires d == Debug(gw.stringBlob, offsets, if gw.recordDebugData then Some(gw.localNames) else None)
    ensures DebugFits(d, gw.strings, NamesFrom(gw.graphs, 0), gw.recordDebugData)
  {
    NamesSplit(gw.graphs, 0);
    EmptyUnit(NamesFrom(gw.graphs, 0));
    EmptyUnit(AllNames(gw.graphs));
    NamedByNamesOf(gw.localNames, gw.strings);
    forall i | 0 <= i < |gw.strings| ensures StringOf(d, i) == Some(gw.strings[i]) {
    }
  }

  ghost predicate AllFaithful(infos: seq<FunctionInfo>, gs: seq<Graph>, symbols: seq<nat>, named: bool) {
    && |infos| == |gs|
    && forall j {:trigger Faithful(infos[j], gs[j], symbols, named)} | 0 <= j < |infos| ::
         gs[j].symbol < |symbols| && Faithful(infos[j], gs[j], symbols, named)
  }

  /** Read what was written, with the addresses of the symbols: all functions come back, and all words are used. */
  method ReadBack<G(==, !new)>(gw: GraphWriter<G>, symbols: seq<nat>)
    returns (infos: seq<FunctionInfo>, unread: seq<U32>, ok: bool)
    requires gw.Valid() && !gw.hasActiveFunctionWriter
    requires AllNulFree(gw.strings) && |symbols| == |gw.symbolsInOrder| && Linked(symbols)
    ensures ok <==> AllocasOk(gw.graphs)
    ensures ok ==> AllFaithful(infos, gw.graphs, symbols, gw.recordDebugData) && unread == []
  {
    var offsets := ParseOffsets(gw.stringBlob);
    ghost var found := OffsetsOfWhole(gw.stringBlob, gw.strings);
    var d := Debug(gw.stringBlob, offsets.offsets, if gw.recordDebugData then Some(gw.localNames) else None);
    WrittenDebugFits(gw, d, offsets.offsets);
    ReadAllIff(d, gw.records, gw.graphs, gw.strings, gw.recordDebugData, symbols, gw.functionData);
    AllocasOkIff(gw.records, gw.graphs, gw.strings);
    infos, unread, ok := ReadFrame(gw.functionData, gw.numFunctions, d, symbols);
    if ok {
      FaithfulToAll(infos, d, gw.records, gw.graphs, gw.strings, gw.recordDebugData, symbols);
    }
  }

  lemma OffsetsOfWhole(blob: string, strings: seq<string>) returns (offsets: seq<nat>)
    requires AllNulFree(strings) && blob == BlobOf(strings)
    ensures OffsetsFrom(blob, 0) == At(offsets) && FoundIn(blob, strings, offsets)
  {
    WholeSlice(blob);
    offsets := OffsetsOfBlob(blob, 0, strings);
  }

  method ReadFrame(words: seq<U32>, numFunctions: nat, d: Debug, symbols: seq<nat>)
    returns (infos: seq<FunctionInfo>, unread: seq<U32>, ok: bool)
    ensures FunctionsRead(numFunctions, words, d, symbols, infos, ok, unread)
  {
    var frame := new Frame(words, symbols, d);
    infos, ok := frame.ReadFunctions(numFunctions);
    unread := frame.functionData;
  }

  lemma FaithfulToAll(
      infos: seq<FunctionInfo>, d: Debug, rs: seq<Record>, gs: seq<Graph>, strings: seq<string>, named: bool,
      symbols: seq<nat>)
    requires RecordsOf(rs, gs, strings) && GraphsOk(gs, |symbols|) && Linked(symbols)
    requires DebugFits(d, strings, NamesFrom(gs, 0), named) && AllHandedOut(infos, rs, d, symbols)
    ensures AllFaithful(infos, gs, symbols, named)
  {
    forall j | 0 <= j < |infos| ensures gs[j].symbol < |symbols| && Faithful(infos[j], gs[j], symbols, named) {
      assert HandedOut(infos[j], rs, j, d, symbols);
      HandedOutIsFaithful(infos[j], d, rs, gs, strings, named, symbols, j);
    }
  }
}
