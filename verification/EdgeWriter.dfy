/**
 The writer of the edge metadata: interned symbols and strings, and one function at a time.
 */
module EdgeWriter {
  import opened EdgeEncoding
  import opened EdgeStream
  import opened MachineWords
  import opened StringTable
  import opened Sequences

  /** An edge between nodes, with index 0 for the kinds without one. */
  datatype Edge = Edge(to: Node, from: Node, idx: U32)

  /** What the writer is told about a function: names are those of its locals, in order. */
  datatype Graph = Graph(
    symbol: nat, component: string, version: string, names: seq<string>, numAllocas: U32, edges: seq<seq<Edge>>
  )

  function EncodeEdge(e: Edge): RawEdge {
    RawEdge(EncodeNode(e.to), EncodeNode(e.from), e.idx)
  }

  function EncodeEdges(es: seq<Edge>): (raw: seq<RawEdge>)
    ensures |raw| == |es|
  {
    if es == [] then [] else EncodeEdges(es[..|es| - 1]) + [EncodeEdge(es[|es| - 1])]
  }

  // ---------------------------------------------------------------------------------------
  // Interning
  // ---------------------------------------------------------------------------------------

  ghost predicate IndexOk<T(!new)>(indices: map<T, nat>, order: seq<T>, i: nat)
    requires i < |order|
  {
    order[i] in indices && indices[order[i]] == i
  }

  ghost predicate KeyOk<T(!new)>(indices: map<T, nat>, order: seq<T>, x: T)
    requires x in indices
  {
    indices[x] < |order| && order[indices[x]] == x
  }

  /** `order` lists the keys of `indices`, each at its index. */
  ghost predicate Interned<T(!new)>(indices: map<T, nat>, order: seq<T>) {
    && |indices| == |order|
    && (forall i {:trigger IndexOk(indices, order, i)} | 0 <= i < |order| :: IndexOk(indices, order, i))
    && (forall x {:trigger KeyOk(indices, order, x)} | x in indices :: KeyOk(indices, order, x))
  }

  lemma InternMore<T(!new)>(indices: map<T, nat>, order: seq<T>, x: T)
    requires Interned(indices, order) && x !in indices
    ensures Interned(indices[x := |order|], order + [x])
  {
    var indices', order' := indices[x := |order|], order + [x];
    assert indices'.Keys == indices.Keys + {x};
    forall i | 0 <= i < |order'| ensures IndexOk(indices', order', i) {
      assert i < |order| ==> IndexOk(indices, order, i);
    }
    forall y | y in indices' ensures KeyOk(indices', order', y) {
      assert y != x ==> KeyOk(indices, order, y);
    }
  }

  /** The order after one more element is interned. */
  function Added<T(==)>(order: seq<T>, x: T): seq<T> {
    if x in order then order else order + [x]
  }

  lemma InternedIff<T(!new)>(indices: map<T, nat>, order: seq<T>, x: T)
    requires Interned(indices, order)
    ensures x in indices <==> x in order
  {
    if x in indices {
      assert KeyOk(indices, order, x);
    }
    if x in order {
      var i :| 0 <= i < |order| && order[i] == x;
      assert IndexOk(indices, order, i);
    }
  }

  /** Interning makes a blob no shorter. */
  lemma BlobOfAdded(strings: seq<string>, s: string)
    ensures |BlobOf(Added(strings, s))| == |BlobOf(strings)| + if s in strings then 0 else |s| + 1
  {
    BlobOfAppend(strings, s);
  }

  /** The names of locals, from their string numbers. */
  ghost function NamesOf(indices: seq<nat>, strings: seq<string>): seq<string>
    requires InTable(indices, |strings|)
  {
    if indices == [] then [] else NamesOf(indices[..|indices| - 1], strings) + [strings[indices[|indices| - 1]]]
  }

  ghost predicate InTable(indices: seq<nat>, size: nat) {
    forall i | 0 <= i < |indices| :: indices[i] < size
  }

  lemma {:induction false} NamesOfMore(indices: seq<nat>, strings: seq<string>, more: seq<string>)
    requires InTable(indices, |strings|) && strings <= more
    ensures InTable(indices, |more|) && NamesOf(indices, more) == NamesOf(indices, strings)
  {
    if indices != [] {
      NamesOfMore(indices[..|indices| - 1], strings, more);
    }
  }

  function AllNames(graphs: seq<Graph>): seq<string> {
    if graphs == [] then [] else AllNames(graphs[..|graphs| - 1]) + graphs[|graphs| - 1].names
  }

  // ---------------------------------------------------------------------------------------
  // Records and graphs
  // ---------------------------------------------------------------------------------------

  /** Each kind of edges is a permutation of those given. */
  ghost predicate SameEdges(raw: seq<seq<RawEdge>>, given: seq<seq<Edge>>) {
    && |raw| == |given| == KINDS
    && forall k | 0 <= k < KINDS :: multiset(raw[k]) == multiset(EncodeEdges(given[k]))
  }

  /** The record of a graph. */
  ghost predicate RecordOf(r: Record, g: Graph, strings: seq<string>) {
    && r.symbolIdx == g.symbol && r.numLocals == |g.names| && r.numAllocas == g.numAllocas
    && r.component < |strings| && strings[r.component] == g.component
    && r.version < |strings| && strings[r.version] == g.version
    && SameEdges(r.edges, g.edges)
  }

  ghost predicate RecordsOf(rs: seq<Record>, gs: seq<Graph>, strings: seq<string>) {
    && |rs| == |gs|
    && forall j {:trigger RecordOf(rs[j], gs[j], strings)} | 0 <= j < |rs| :: RecordOf(rs[j], gs[j], strings)
  }

  /** The nodes a function may use: known symbols, and its own locals. */
  predicate OwnNode(n: Node, symbol: nat, numLocals: nat, numSymbols: nat) {
    n.symbol < numSymbols && (n.Local? ==> n.symbol == symbol && n.idx < numLocals)
  }

  predicate EdgeOk(e: Edge, symbol: nat, numLocals: nat, numSymbols: nat) {
    OwnNode(e.to, symbol, numLocals, numSymbols) && OwnNode(e.from, symbol, numLocals, numSymbols)
  }

  predicate KindOk(k: nat, es: seq<Edge>, symbol: nat, numLocals: nat, numSymbols: nat) {
    && (forall i | 0 <= i < |es| :: EdgeOk(es[i], symbol, numLocals, numSymbols))
    && (Arity(k) == 2 ==> forall i | 0 <= i < |es| :: es[i].idx == 0)
  }

  ghost predicate EdgesOk(kinds: seq<seq<Edge>>, symbol: nat, numLocals: nat, numSymbols: nat) {
    && |kinds| == KINDS
    && forall k {:trigger KindOk(k, kinds[k], symbol, numLocals, numSymbols)} | 0 <= k < KINDS ::
         KindOk(k, kinds[k], symbol, numLocals, numSymbols)
  }

  ghost predicate GraphOk(g: Graph, numSymbols: nat) {
    g.symbol < numSymbols && |g.names| < TWO_16 && EdgesOk(g.edges, g.symbol, |g.names|, numSymbols)
  }

  ghost predicate GraphsOk(gs: seq<Graph>, numSymbols: nat) {
    forall j {:trigger GraphOk(gs[j], numSymbols)} | 0 <= j < |gs| :: GraphOk(gs[j], numSymbols)
  }

  lemma EdgesStayOk(
      kinds: seq<seq<Edge>>, symbol: nat, numLocals: nat, numSymbols: nat, moreLocals: nat, moreSymbols: nat)
    requires EdgesOk(kinds, symbol, numLocals, numSymbols) && numLocals <= moreLocals && numSymbols <= moreSymbols
    ensures EdgesOk(kinds, symbol, moreLocals, moreSymbols)
  {
    forall k | 0 <= k < KINDS ensures KindOk(k, kinds[k], symbol, moreLocals, moreSymbols) {
      assert KindOk(k, kinds[k], symbol, numLocals, numSymbols);
    }
  }

  lemma EdgesWithOneMore(kinds: seq<seq<Edge>>, kind: nat, e: Edge, symbol: nat, numLocals: nat, numSymbols: nat)
    requires EdgesOk(kinds, symbol, numLocals, numSymbols) && kind < KINDS
    requires EdgeOk(e, symbol, numLocals, numSymbols) && (Arity(kind) == 2 ==> e.idx == 0)
    ensures EdgesOk(kinds[kind := kinds[kind] + [e]], symbol, numLocals, numSymbols)
  {
    var kinds' := kinds[kind := kinds[kind] + [e]];
    forall k | 0 <= k < KINDS ensures KindOk(k, kinds'[k], symbol, numLocals, numSymbols) {
      assert KindOk(k, kinds[k], symbol, numLocals, numSymbols);
    }
  }

  lemma GraphsStayOk(gs: seq<Graph>, numSymbols: nat, moreSymbols: nat)
    requires GraphsOk(gs, numSymbols) && numSymbols <= moreSymbols
    ensures GraphsOk(gs, moreSymbols)
  {
    forall j | 0 <= j < |gs| ensures GraphOk(gs[j], moreSymbols) {
      assert GraphOk(gs[j], numSymbols);
      EdgesStayOk(gs[j].edges, gs[j].symbol, |gs[j].names|, numSymbols, |gs[j].names|, moreSymbols);
    }
  }

  class GraphWriter<G(==, !new)> {
    const recordDebugData: bool
    var symbols: map<G, nat>
    var symbolsInOrder: seq<G>
    var stringIndices: map<string, nat>
    var stringBlob: string
    var localNames: seq<nat>
    var functionData: seq<U32>
    var numFunctions: nat
    var hasActiveFunctionWriter: bool
    /** The strings in the blob. */
    ghost var strings: seq<string>
    /** The finished functions, as given and as written, and the names of the locals of the active one. */
    ghost var graphs: seq<Graph>
    ghost var records: seq<Record>
    ghost var pending: seq<string>

    ghost predicate SymbolsOk()
      reads `symbols, `symbolsInOrder
    {
      Interned(symbols, symbolsInOrder)
    }

    ghost predicate StringsOk()
      reads `stringIndices, `strings, `stringBlob
    {
      && Interned(stringIndices, strings)
      && stringBlob == BlobOf(strings)
      && |stringBlob| < TWO_32
    }

    ghost predicate NamesOk()
      reads `localNames, `strings, `graphs, `pending
    {
      && InTable(localNames, |strings|)
      && NamesOf(localNames, strings) == if recordDebugData then AllNames(graphs) + pending else []
    }

    ghost predicate StreamOk()
      reads `records, `functionData, `graphs, `strings, `numFunctions, `hasActiveFunctionWriter, `pending
    {
      && HoldsStream(functionData, records)
      && RecordsOf(records, graphs, strings)
      && numFunctions == |graphs| + (if hasActiveFunctionWriter then 1 else 0)
      && (!hasActiveFunctionWriter ==> pending == [])
    }

    ghost predicate Valid()
      reads this
    {
      SymbolsOk() && StringsOk() && NamesOk() && StreamOk() && GraphsOk(graphs, |symbolsInOrder|)
    }

    constructor (recordDebugData: bool)
      ensures Valid() && !hasActiveFunctionWriter && this.recordDebugData == recordDebugData
      ensures graphs == [] && symbolsInOrder == [] && strings == []
    {
      this.recordDebugData := recordDebugData;
      symbols, symbolsInOrder := map[], [];
      stringIndices, stringBlob := map[], "";
      localNames, functionData, numFunctions, hasActiveFunctionWriter := [], [], 0, false;
      strings, graphs, records, pending := [], [], [], [];
    }

    /** The node of a global; equal globals get equal nodes. */
    method Symbol(global: G) returns (n: Node)
      requires Valid() && |symbolsInOrder| < TWO_32
      modifies `symbols, `symbolsInOrder
      ensures Valid() && symbolsInOrder == Added(old(symbolsInOrder), global)
      ensures n.Symbol? && n.symbol < |symbolsInOrder| && symbolsInOrder[n.symbol] == global
    {
      InternedIff(symbols, symbolsInOrder, global);
      if global in symbols {
        assert KeyOk(symbols, symbolsInOrder, global);
        return Node.Symbol(symbols[global]);
      }
      GraphsStayOk(graphs, |symbolsInOrder|, |symbolsInOrder| + 1);
      var idx := AddSymbol(global);
      return Node.Symbol(idx);
    }

    method AddSymbol(global: G) returns (idx: nat)
      requires SymbolsOk() && global !in symbols
      modifies `symbols, `symbolsInOrder
      ensures SymbolsOk() && idx == |old(symbolsInOrder)| && symbolsInOrder == old(symbolsInOrder) + [global]
    {
      InternMore(symbols, symbolsInOrder, global);
      idx := |symbols|;
      assert idx == |symbolsInOrder|;
      symbols := symbols[global := idx];
      symbolsInOrder := symbolsInOrder + [global];
    }

    /** The number of a string; a string is stored once. */
    method String(s: string) returns (idx: nat)
      requires Valid() && |BlobOf(Added(strings, s))| < TWO_32
      modifies `stringIndices, `stringBlob, `strings
      ensures Valid() && strings == Added(old(strings), s)
      ensures idx < |strings| && strings[idx] == s
    {
      InternedIff(stringIndices, strings, s);
      BlobOfAdded(strings, s);
      if s in stringIndices {
        assert KeyOk(stringIndices, strings, s);
        return stringIndices[s];
      }
      NamesOfMore(localNames, strings, strings + [s]);
      RecordsStay(records, graphs, strings, strings + [s]);
      idx := AddString(s);
    }

    method AddString(s: string) returns (idx: nat)
      requires StringsOk() && |stringBlob| + |s| + 1 < TWO_32 && s !in stringIndices
      modifies `stringIndices, `stringBlob, `strings
      ensures StringsOk() && idx == |old(strings)| && strings == old(strings) + [s]
      ensures |stringBlob| == |old(stringBlob)| + |s| + 1
    {
      InternMore(stringIndices, strings, s);
      BlobOfAppend(strings, s);
      idx := |stringIndices|;
      stringBlob := stringBlob + s;
      stringBlob := stringBlob + [NUL];
      stringIndices := stringIndices[s := idx];
      strings := strings + [s];
    }

    /** The numbers for the header of a function that becomes active. */
    method Begin(global: G, component: string, version: string) returns (symbol: nat, c: nat, v: nat)
      requires Valid() && !hasActiveFunctionWriter
      requires |symbolsInOrder| < TWO_32 - 1 && |BlobOf(Added(Added(strings, component), version))| < TWO_32
      modifies this
      ensures symbolsInOrder == Added(old(symbolsInOrder), global)
      ensures strings == Added(Added(old(strings), component), version)
      ensures Valid() && hasActiveFunctionWriter && pending == [] && graphs == old(graphs)
      ensures HeaderOk(symbol, c, component, v, version) && symbolsInOrder[symbol] == global
    {
      hide Interned, BlobOf, NamesOf, HoldsStream;
      Activate();
      var n := Symbol(global);
      c, v := HeaderStrings(component, version);
      return n.symbol, c, v;
    }

    method HeaderStrings(component: string, version: string) returns (c: nat, v: nat)
      requires Valid() && |BlobOf(Added(Added(strings, component), version))| < TWO_32
      modifies `stringIndices, `stringBlob, `strings
      ensures Valid() && strings == Added(Added(old(strings), component), version)
      ensures c < |strings| && strings[c] == component && v < |strings| && strings[v] == version && |strings| < TWO_32
    {
      BlobOfAdded(Added(strings, component), version);
      c := String(component);
      v := String(version);
      BlobIsLonger(strings);
    }

    ghost predicate HeaderOk(symbol: nat, c: nat, component: string, v: nat, version: string)
      reads `symbolsInOrder, `strings
    {
      && symbol < |symbolsInOrder| && symbol < TWO_32
      && c < |strings| && strings[c] == component && c < TWO_32
      && v < |strings| && strings[v] == version && v < TWO_32
    }

    method Activate()
      requires Valid() && !hasActiveFunctionWriter
      modifies `hasActiveFunctionWriter, `numFunctions
      ensures Valid() && hasActiveFunctionWriter && pending == []
    {
      hasActiveFunctionWriter := true;
      numFunctions := numFunctions + 1;
    }

    /** A local of the active function gets a name. */
    method LocalName(name: string)
      requires Valid() && hasActiveFunctionWriter
      requires recordDebugData ==> |BlobOf(Added(strings, name))| < TWO_32
      modifies `stringIndices, `stringBlob, `strings, `localNames, `pending
      ensures Valid() && pending == old(pending) + [name]
      ensures strings == if recordDebugData then Added(old(strings), name) else old(strings)
    {
      hide Interned, BlobOf, NamesOf, HoldsStream;
      if recordDebugData {
        var idx := String(name);
        PushLocalName(idx, name);
      } else {
        Unnamed(name);
      }
    }

    ghost method Unnamed(name: string)
      requires Valid() && hasActiveFunctionWriter && !recordDebugData
      modifies `pending
      ensures Valid() && pending == old(pending) + [name]
    {
      pending := pending + [name];
    }

    method PushLocalName(idx: nat, ghost name: string)
      requires Valid() && hasActiveFunctionWriter && recordDebugData
      requires idx < |strings| && strings[idx] == name
      modifies `localNames, `pending
      ensures Valid() && pending == old(pending) + [name]
    {
      NamesOfAppend(localNames, idx, strings);
      Associative(AllNames(graphs), pending, [name]);
      localNames := localNames + [idx];
      pending := pending + [name];
    }

    /** Write the active function, which is then finished. */
    method WriteFunction(r: Record, ghost g: Graph)
      requires Valid() && hasActiveFunctionWriter && g.names == pending
      requires Writable(r) && RecordOf(r, g, strings) && GraphOk(g, |symbolsInOrder|)
      modifies `functionData, `hasActiveFunctionWriter, `graphs, `records, `pending
      ensures Valid() && !hasActiveFunctionWriter && graphs == old(graphs) + [g] && records == old(records) + [r]
    {
      NamesJoin(graphs, g);
      RecordsJoin(records, graphs, strings, r, g);
      GraphsJoin(graphs, g, |symbolsInOrder|);
      AppendRecord(r);
      Conclude(graphs + [g], records + [r]);
    }

    method Conclude(ghost gs: seq<Graph>, ghost rs: seq<Record>)
      requires SymbolsOk() && StringsOk() && GraphsOk(gs, |symbolsInOrder|)
      requires HoldsStream(functionData, rs) && RecordsOf(rs, gs, strings) && numFunctions == |gs|
      requires InTable(localNames, |strings|)
      requires NamesOf(localNames, strings) == if recordDebugData then AllNames(gs) + [] else []
      modifies `hasActiveFunctionWriter, `graphs, `records, `pending
      ensures Valid() && !hasActiveFunctionWriter && graphs == gs && records == rs
    {
      hasActiveFunctionWriter := false;
      graphs, records, pending := gs, rs, [];
    }

    method AppendRecord(r: Record)
      requires HoldsStream(functionData, records) && Writable(r)
      modifies `functionData
      ensures HoldsStream(functionData, records + [r])
    {
      StreamGrows(functionData, records, r);
      WriteRecord(r);
    }

    /** The header words, and the edges of each kind. */
    method WriteRecord(r: Record)
      requires Writable(r)
      modifies `functionData
      ensures functionData == old(functionData) + RecordWords(r)
    {
      hide DeltaWords;
      functionData := functionData + [r.symbolIdx];
      functionData := functionData + [r.component];
      functionData := functionData + [r.version];
      functionData := functionData + [r.numLocals];
      functionData := functionData + [r.numAllocas];
      assert functionData == old(functionData) + HeaderWords(r);
      Associative(old(functionData), HeaderWords(r), KindWords(r.edges, 0));
      for k := 0 to KINDS
        invariant functionData + KindWords(r.edges, k) == old(functionData) + RecordWords(r)
      {
        ghost var before := functionData;
        WriteEdges(Arity(k), r.edges[k]);
        Associative(before, KindBlock(r.edges[k], k), KindWords(r.edges, k + 1));
      }
      EmptyUnit(functionData);
    }

    /** The number of edges, and their deltas: one running value is shared by both ends. */
    method WriteEdges(arity: nat, es: seq<RawEdge>)
      requires 2 <= arity <= 3 && |es| < TWO_32
      modifies `functionData
      ensures functionData == old(functionData) + ([|es|] + DeltaWords(arity, es, 0))
    {
      hide EdgeWords, ZigzagEncode, Signed;
      functionData := functionData + [|es|];
      ghost var start := functionData;
      var previousValue: U32 := 0;
      for i := 0 to |es|
        invariant functionData + DeltaWords(arity, es[i..], previousValue) == start + DeltaWords(arity, es, 0)
      {
        var edge := es[i];
        NextEdge(arity, es, i, previousValue, functionData);
        var delta0 := Signed(Wrap(edge.to - previousValue));
        previousValue := edge.to;
        var delta1 := Signed(Wrap(edge.from - previousValue));
        previousValue := edge.from;
        functionData := functionData + [ZigzagEncode(delta0)];
        functionData := functionData + [ZigzagEncode(delta1)];
        if arity == 3 {
          functionData := functionData + [edge.idx];
        }
      }
      EmptyUnit(functionData);
      Associative(old(functionData), [|es|], DeltaWords(arity, es, 0));
    }
  }

  lemma NextEdge(arity: nat, es: seq<RawEdge>, i: nat, previous: U32, data: seq<U32>)
    requires 2 <= arity <= 3 && i < |es|
    ensures data + DeltaWords(arity, es[i..], previous)
      == data + EdgeWords(arity, es[i], previous) + DeltaWords(arity, es[i + 1..], es[i].from)
    ensures data + EdgeWords(arity, es[i], previous) ==
      if arity == 3 then data + [DeltaCode(es[i].to, previous)] + [DeltaCode(es[i].from, es[i].to)] + [es[i].idx]
      else data + [DeltaCode(es[i].to, previous)] + [DeltaCode(es[i].from, es[i].to)]
  {
    assert es[i..][0] == es[i] && es[i..][1..] == es[i + 1..];
    Associative(data, EdgeWords(arity, es[i], previous), DeltaWords(arity, es[i + 1..], es[i].from));
  }

  /** The graph of the active function joins the finished ones. */
  lemma NamesJoin(graphs: seq<Graph>, g: Graph)
    ensures AllNames(graphs + [g]) + [] == AllNames(graphs) + g.names
  {
    assert (graphs + [g])[..|graphs|] == graphs;
    EmptyUnit(AllNames(graphs + [g]));
  }

  lemma RecordsJoin(rs: seq<Record>, gs: seq<Graph>, strings: seq<string>, r: Record, g: Graph)
    requires RecordsOf(rs, gs, strings) && RecordOf(r, g, strings)
    ensures RecordsOf(rs + [r], gs + [g], strings)
  {
    forall j | 0 <= j < |rs| + 1 ensures RecordOf((rs + [r])[j], (gs + [g])[j], strings) {
      assert j < |rs| ==> RecordOf(rs[j], gs[j], strings);
    }
  }

  lemma GraphsJoin(gs: seq<Graph>, g: Graph, numSymbols: nat)
    requires GraphsOk(gs, numSymbols) && GraphOk(g, numSymbols)
    ensures GraphsOk(gs + [g], numSymbols)
  {
    forall j | 0 <= j < |gs| + 1 ensures GraphOk((gs + [g])[j], numSymbols) {
      assert j < |gs| ==> GraphOk(gs[j], numSymbols);
    }
  }

  /** Permutations of edges without index have no index. */
  lemma SortedFits(k: nat, raw: seq<RawEdge>, es: seq<Edge>, symbol: nat, numLocals: nat, numSymbols: nat)
    requires multiset(raw) == multiset(EncodeEdges(es)) && KindOk(k, es, symbol, numLocals, numSymbols)
    ensures FitsArity(Arity(k), raw) && |raw| == |es|
  {
    assert |multiset(raw)| == |raw| && |multiset(EncodeEdges(es))| == |es|;
    if Arity(k) == 2 {
      EncodedFits(es);
      forall e | e in raw ensures e.idx == 0 {
        assert e in multiset(raw);
        assert e in EncodeEdges(es);
      }
    }
  }

  lemma {:induction false} EncodedFits(es: seq<Edge>)
    requires forall i | 0 <= i < |es| :: es[i].idx == 0
    ensures forall e | e in EncodeEdges(es) :: e.idx == 0
  {
    if es != [] {
      EncodedFits(es[..|es| - 1]);
    }
  }

  lemma {:induction false} EncodedIsSmall(es: seq<Edge>, symbol: nat, numLocals: nat, numSymbols: nat)
    requires numSymbols <= TWO_31 / 4
    requires forall i | 0 <= i < |es| :: EdgeOk(es[i], symbol, numLocals, numSymbols)
    ensures forall e | e in EncodeEdges(es) :: SmallEnds(e)
  {
    if es != [] {
      EncodedIsSmall(es[..|es| - 1], symbol, numLocals, numSymbols);
      var last := es[|es| - 1];
      assert EdgeOk(last, symbol, numLocals, numSymbols);
      NodeIsSmall(last.to, numSymbols);
      NodeIsSmall(last.from, numSymbols);
    }
  }

  lemma NodeIsSmall(n: Node, numSymbols: nat)
    requires n.symbol < numSymbols <= TWO_31 / 4
    ensures EncodeNode(n) < TWO_31 / 2
  {
  }

  /** With up to 2^29 symbols, no delta of a function is beyond what the doubling is defined for. */
  lemma WrittenDeltasDefined(r: Record, g: Graph, strings: seq<string>, numSymbols: nat, k: nat)
    requires RecordOf(r, g, strings) && GraphOk(g, numSymbols) && numSymbols <= TWO_31 / 4 && k < KINDS
    ensures DeltasDefined(r.edges[k], 0)
  {
    assert KindOk(k, g.edges[k], g.symbol, |g.names|, numSymbols);
    EncodedIsSmall(g.edges[k], g.symbol, |g.names|, numSymbols);
    forall e | e in r.edges[k] ensures SmallEnds(e) {
      assert e in multiset(r.edges[k]);
      assert e in EncodeEdges(g.edges[k]);
    }
    SmallDeltasDefined(r.edges[k], 0);
  }

  /** A blob is at least as long as its number of strings. */
  lemma {:induction false} BlobIsLonger(strings: seq<string>)
    ensures |strings| <= |BlobOf(strings)|
  {
    if strings != [] {
      BlobIsLonger(strings[1..]);
    }
  }

  lemma NamesOfAppend(indices: seq<nat>, idx: nat, strings: seq<string>)
    requires InTable(indices, |strings|) && idx < |strings|
    ensures InTable(indices + [idx], |strings|)
    ensures NamesOf(indices + [idx], strings) == NamesOf(indices, strings) + [strings[idx]]
  {
    assert (indices + [idx])[..|indices|] == indices;
  }

  lemma RecordsStay(rs: seq<Record>, gs: seq<Graph>, strings: seq<string>, more: seq<string>)
    requires RecordsOf(rs, gs, strings) && strings <= more
    ensures RecordsOf(rs, gs, more)
  {
    forall j | 0 <= j < |rs| ensures RecordOf(rs[j], gs[j], more) {
      assert RecordOf(rs[j], gs[j], strings);
    }
  }

  class FunctionWriter<G(==, !new)> {
    const gw: GraphWriter<G>
    const symbolIdx: nat
    const componentIdx: nat
    const versionIdx: nat
    var numLocals: nat
    var edges: seq<seq<RawEdge>>
    var written: bool
    ghost const component: string
    ghost const version: string
    /** The edges as given. */
    ghost var given: seq<seq<Edge>>

    ghost predicate EdgesGiven()
      reads `edges, `given
    {
      && |edges| == |given| == KINDS
      && forall k {:trigger EncodeEdges(given[k])} | 0 <= k < KINDS :: edges[k] == EncodeEdges(given[k])
    }

    ghost predicate Valid()
      reads this, gw
    {
      && gw.Valid() && gw.hasActiveFunctionWriter && !written
      && gw.HeaderOk(symbolIdx, componentIdx, component, versionIdx, version)
      && numLocals == |gw.pending| < TWO_16
      && EdgesGiven() && EdgesOk(given, symbolIdx, numLocals, |gw.symbolsInOrder|)
    }

    /** `component` and `version` are empty where the function has no component. */
    constructor (gw: GraphWriter<G>, global: G, component: string, version: string)
      requires gw.Valid() && !gw.hasActiveFunctionWriter
      requires |gw.symbolsInOrder| < TWO_32 - 1
      requires |BlobOf(Added(Added(gw.strings, component), version))| < TWO_32
      modifies gw
      ensures Valid() && this.gw == gw && numLocals == 0 && given == seq(KINDS, _ => [])
      ensures gw.graphs == old(gw.graphs) && gw.symbolsInOrder[symbolIdx] == global
      ensures gw.symbolsInOrder == Added(old(gw.symbolsInOrder), global)
      ensures gw.strings == Added(Added(old(gw.strings), component), version)
      ensures this.component == component && this.version == version
    {
      var symbol, c, v := gw.Begin(global, component, version);
      this.gw := gw;
      symbolIdx, componentIdx, versionIdx := symbol, c, v;
      numLocals, written := 0, false;
      edges := seq(KINDS, _ => []);
      this.component, this.version, given := component, version, seq(KINDS, _ => []);
    }

    /** The next local; locals that the node type cannot hold are an error of the caller. */
    method FreshLocal(name: string) returns (n: Node)
      requires Valid() && numLocals + 1 < TWO_16
      requires gw.recordDebugData ==> |BlobOf(Added(gw.strings, name))| < TWO_32
      modifies `numLocals, gw
      ensures Valid() && n == Node.Local(symbolIdx, old(numLocals)) && numLocals == old(numLocals) + 1
      ensures gw.pending == old(gw.pending) + [name] && gw.graphs == old(gw.graphs)
      ensures gw.symbolsInOrder == old(gw.symbolsInOrder)
      ensures gw.strings == if gw.recordDebugData then Added(old(gw.strings), name) else old(gw.strings)
    {
      EdgesStayOk(given, symbolIdx, numLocals, |gw.symbolsInOrder|, numLocals + 1, |gw.symbolsInOrder|);
      var idx := numLocals;
      gw.LocalName(name);
      numLocals := numLocals + 1;
      return Node.Local(symbolIdx, idx);
    }

    method AddEdge(kind: nat, e: Edge)
      requires Valid() && kind < KINDS && EdgeOk(e, symbolIdx, numLocals, |gw.symbolsInOrder|)
      requires Arity(kind) == 2 ==> e.idx == 0
      modifies `edges, `given
      ensures Valid() && given == old(given)[kind := old(given)[kind] + [e]]
    {
      assert EncodeEdges(given[kind] + [e]) == EncodeEdges(given[kind]) + [EncodeEdge(e)] by {
        assert (given[kind] + [e])[..|given[kind]|] == given[kind];
      }
      assert KindOk(kind, given[kind], symbolIdx, numLocals, |gw.symbolsInOrder|);
      EdgesWithOneMore(given, kind, e, symbolIdx, numLocals, |gw.symbolsInOrder|);
      edges := edges[kind := edges[kind] + [EncodeEdge(e)]];
      given := given[kind := given[kind] + [e]];
    }

    /** `sorted` are the edges of each kind after sorting: a permutation, whatever the order. */
    method Finish(numAllocas: U32, sorted: seq<seq<RawEdge>>)
      requires Valid() && |sorted| == KINDS
      requires forall k | 0 <= k < KINDS :: multiset(sorted[k]) == multiset(edges[k]) && |edges[k]| < TWO_32
      modifies `written, `edges, gw
      ensures gw.Valid() && !gw.hasActiveFunctionWriter && written && edges == sorted
      ensures gw.graphs == old(gw.graphs) + [Graph(symbolIdx, component, version, old(gw.pending), numAllocas, given)]
      ensures gw.symbolsInOrder == old(gw.symbolsInOrder) && gw.strings == old(gw.strings)
    {
      written := true;
      edges := sorted;
      var r := Record(symbolIdx, componentIdx, versionIdx, numLocals, numAllocas, sorted);
      SortedKindsFit(sorted);
      gw.WriteFunction(r, Graph(symbolIdx, component, version, gw.pending, numAllocas, given));
    }

    lemma SortedKindsFit(sorted: seq<seq<RawEdge>>)
      requires |sorted| == |given| == KINDS && EdgesOk(given, symbolIdx, numLocals, |gw.symbolsInOrder|)
      requires forall k | 0 <= k < KINDS ::
        multiset(sorted[k]) == multiset(EncodeEdges(given[k])) && |given[k]| < TWO_32
      ensures WritableKinds(sorted) && SameEdges(sorted, given)
    {
      forall k | 0 <= k < KINDS ensures FitsArity(Arity(k), sorted[k]) && |sorted[k]| < TWO_32 {
        SortedFits(k, sorted[k], given[k], symbolIdx, numLocals, |gw.symbolsInOrder|);
      }
    }
  }
}
