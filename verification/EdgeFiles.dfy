/**
 Whole files of edge metadata: any functions, each built by any sequence of new locals and new edges, are
 written and read back. What comes out is compared with what the callers of the writer gave to it.
 */
module EdgeFiles {
  import opened EdgeEncoding
  import opened EdgeReader
  import opened EdgeRoundTrip
  import opened EdgeStream
  import opened EdgeWriter
  import opened MachineWords
  import opened Sequences
  import opened StringTable

  // ---------------------------------------------------------------------------------------
  // What is given to the writer
  // ---------------------------------------------------------------------------------------

  /** An end of an edge: a global, or a local of the function by its number. */
  datatype End<G> = Global(global: G) | Own(idx: nat)

  datatype Link<G> = Link(to: End<G>, from: End<G>, idx: U32)

  datatype Command<G> = NewLocal(name: string) | NewEdge(kind: nat, link: Link<G>)

  datatype Function<G> = Function(
    global: G, component: string, version: string, commands: seq<Command<G>>, numAllocas: U32
  )

  function NamesIn<G>(cs: seq<Command<G>>): seq<string> {
    if cs == [] then []
    else
      var names, last := NamesIn(cs[..|cs| - 1]), cs[|cs| - 1];
      if last.NewLocal? then names + [last.name] else names
  }

  function LinksIn<G>(cs: seq<Command<G>>, kind: nat): seq<Link<G>> {
    if cs == [] then []
    else
      var links, last := LinksIn(cs[..|cs| - 1], kind), cs[|cs| - 1];
      if last.NewEdge? && last.kind == kind then links + [last.link] else links
  }

  predicate EndOk<G>(end: End<G>, numLocals: nat) {
    end.Own? ==> end.idx < numLocals
  }

  /** Edges are between locals that there are; only calls, argument definitions and argument supplies have an index. */
  predicate CommandOk<G>(c: Command<G>, numLocals: nat) {
    match c
    case NewLocal(_) => numLocals + 1 < TWO_16
    case NewEdge(kind, link) =>
      && kind < 8 && EndOk(link.to, numLocals) && EndOk(link.from, numLocals)
      && (kind != 3 && kind != 5 && kind != 6 ==> link.idx == 0)
  }

  predicate FunctionOk<G>(f: Function<G>) {
    && (forall i | 0 <= i < |f.commands| :: CommandOk(f.commands[i], |NamesIn(f.commands[..i])|))
    && (forall k | 0 <= k < KINDS :: |LinksIn(f.commands, k)| < TWO_32)
  }

  predicate NulFreeFunction<G>(f: Function<G>, named: bool) {
    NulFree(f.component) && NulFree(f.version) && (named ==> forall name | name in NamesIn(f.commands) :: NulFree(name))
  }

  // ---------------------------------------------------------------------------------------
  // What is interned
  // ---------------------------------------------------------------------------------------

  function WithEnd<G(==)>(order: seq<G>, end: End<G>): seq<G> {
    if end.Global? then Added(order, end.global) else order
  }

  function GlobalsAfter<G(==)>(order: seq<G>, cs: seq<Command<G>>): seq<G> {
    if cs == [] then order
    else
      var before, last := GlobalsAfter(order, cs[..|cs| - 1]), cs[|cs| - 1];
      if last.NewEdge? then WithEnd(WithEnd(before, last.link.to), last.link.from) else before
  }

  function StringsAfter<G>(order: seq<string>, cs: seq<Command<G>>, named: bool): seq<string> {
    if cs == [] then order
    else
      var before, last := StringsAfter(order, cs[..|cs| - 1], named), cs[|cs| - 1];
      if last.NewLocal? && named then Added(before, last.name) else before
  }

  /** The globals of a file, in the order in which they are first mentioned. */
  function AllGlobals<G(==)>(fs: seq<Function<G>>): seq<G> {
    if fs == [] then []
    else GlobalsAfter(Added(AllGlobals(fs[..|fs| - 1]), fs[|fs| - 1].global), fs[|fs| - 1].commands)
  }

  /** The strings of a file. */
  function AllStrings<G>(fs: seq<Function<G>>, named: bool): seq<string> {
    if fs == [] then []
    else
      var f := fs[|fs| - 1];
      StringsAfter(Added(Added(AllStrings(fs[..|fs| - 1], named), f.component), f.version), f.commands, named)
  }

  lemma {:induction false} GlobalsGrow<G>(order: seq<G>, cs: seq<Command<G>>, i: nat)
    requires i <= |cs|
    ensures GlobalsAfter(order, cs[..i]) <= GlobalsAfter(order, cs)
    decreases |cs|
  {
    if i == |cs| {
      WholeSlice(cs);
    } else {
      GlobalsGrow(order, cs[..|cs| - 1], i);
      assert cs[..|cs| - 1][..i] == cs[..i];
    }
  }

  lemma {:induction false} StringsGrow<G>(order: seq<string>, cs: seq<Command<G>>, named: bool, i: nat)
    requires i <= |cs|
    ensures StringsAfter(order, cs[..i], named) <= StringsAfter(order, cs, named)
    decreases |cs|
  {
    if i == |cs| {
      WholeSlice(cs);
    } else {
      StringsGrow(order, cs[..|cs| - 1], named, i);
      assert cs[..|cs| - 1][..i] == cs[..i];
    }
  }

  lemma {:induction false} FileGrows<G>(fs: seq<Function<G>>, named: bool, j: nat)
    requires j <= |fs|
    ensures AllGlobals(fs[..j]) <= AllGlobals(fs) && AllStrings(fs[..j], named) <= AllStrings(fs, named)
    decreases |fs|
  {
    if j == |fs| {
      WholeSlice(fs);
    } else {
      var init, f := fs[..|fs| - 1], fs[|fs| - 1];
      FileGrows(init, named, j);
      assert init[..j] == fs[..j];
      FunctionGrows(AllGlobals(init), AllStrings(init, named), f, named);
    }
  }

  lemma FunctionGrows<G>(globals: seq<G>, strings: seq<string>, f: Function<G>, named: bool)
    ensures globals <= GlobalsAfter(Added(globals, f.global), f.commands)
    ensures strings <= StringsAfter(Added(Added(strings, f.component), f.version), f.commands, named)
  {
    GlobalsGrow(Added(globals, f.global), f.commands, 0);
    StringsGrow(Added(Added(strings, f.component), f.version), f.commands, named, 0);
  }

  lemma {:induction false} BlobOfPrefix(strings: seq<string>, more: seq<string>)
    requires strings <= more
    ensures |BlobOf(strings)| <= |BlobOf(more)|
    decreases |more|
  {
    if strings == more {
    } else {
      var init := more[..|more| - 1];
      BlobOfPrefix(strings, init);
      BlobOfAppend(init, more[|more| - 1]);
      assert more == init + [more[|more| - 1]];
    }
  }

  /** Only what is given is interned. */
  lemma {:induction false} NulFreeStrings<G>(fs: seq<Function<G>>, named: bool)
    requires forall j | 0 <= j < |fs| :: NulFreeFunction(fs[j], named)
    ensures forall s | s in AllStrings(fs, named) :: NulFree(s)
  {
    if fs != [] {
      var f := fs[|fs| - 1];
      NulFreeStrings(fs[..|fs| - 1], named);
      NulFreeNames(Added(Added(AllStrings(fs[..|fs| - 1], named), f.component), f.version), f.commands, named);
    }
  }

  lemma {:induction false} NulFreeNames<G>(order: seq<string>, cs: seq<Command<G>>, named: bool)
    requires forall s | s in order :: NulFree(s)
    requires named ==> forall name | name in NamesIn(cs) :: NulFree(name)
    ensures forall s | s in StringsAfter(order, cs, named) :: NulFree(s)
  {
    if cs != [] {
      NulFreeNames(order, cs[..|cs| - 1], named);
    }
  }

  // ---------------------------------------------------------------------------------------
  // Writing
  // ---------------------------------------------------------------------------------------

  /** A node of the writer is what was given, by the order in which globals were interned. */
  ghost predicate IsEnd<G>(n: Node, end: End<G>, order: seq<G>, symbol: nat) {
    match end
    case Global(global) => n.Symbol? && n.symbol < |order| && order[n.symbol] == global
    case Own(idx) => n == Node.Local(symbol, idx)
  }

  ghost predicate IsLink<G>(e: Edge, link: Link<G>, order: seq<G>, symbol: nat) {
    IsEnd(e.to, link.to, order, symbol) && IsEnd(e.from, link.from, order, symbol) && e.idx == link.idx
  }

  ghost predicate AreLinks<G>(es: seq<Edge>, links: seq<Link<G>>, order: seq<G>, symbol: nat) {
    && |es| == |links|
    && forall i {:trigger IsLink(es[i], links[i], order, symbol)} | 0 <= i < |es| ::
      IsLink(es[i], links[i], order, symbol)
  }

  /** The edges of all kinds that the commands give. */
  ghost predicate AreGiven<G>(kinds: seq<seq<Edge>>, cs: seq<Command<G>>, order: seq<G>, symbol: nat) {
    && |kinds| == KINDS
    && forall k {:trigger AreLinks(kinds[k], LinksIn(cs, k), order, symbol)} | 0 <= k < KINDS ::
         AreLinks(kinds[k], LinksIn(cs, k), order, symbol)
  }

  ghost predicate IsGraph<G>(g: Graph, f: Function<G>, order: seq<G>) {
    && g.symbol < |order| && order[g.symbol] == f.global
    && g.component == f.component && g.version == f.version
    && g.names == NamesIn(f.commands) && g.numAllocas == f.numAllocas
    && AreGiven(g.edges, f.commands, order, g.symbol)
  }

  ghost predicate AreGraphs<G>(gs: seq<Graph>, fs: seq<Function<G>>, order: seq<G>) {
    && |gs| == |fs|
    && forall j {:trigger IsGraph(gs[j], fs[j], order)} | 0 <= j < |gs| :: IsGraph(gs[j], fs[j], order)
  }

  lemma GivenStay<G>(kinds: seq<seq<Edge>>, cs: seq<Command<G>>, order: seq<G>, more: seq<G>, symbol: nat)
    requires AreGiven(kinds, cs, order, symbol) && order <= more
    ensures AreGiven(kinds, cs, more, symbol)
  {
    forall k | 0 <= k < KINDS ensures AreLinks(kinds[k], LinksIn(cs, k), more, symbol) {
      var links := LinksIn(cs, k);
      assert AreLinks(kinds[k], links, order, symbol);
      forall i | 0 <= i < |links| ensures IsLink(kinds[k][i], links[i], more, symbol) {
        assert IsLink(kinds[k][i], links[i], order, symbol);
      }
    }
  }

  lemma GraphsStay<G>(gs: seq<Graph>, fs: seq<Function<G>>, order: seq<G>, more: seq<G>)
    requires AreGraphs(gs, fs, order) && order <= more
    ensures AreGraphs(gs, fs, more)
  {
    forall j | 0 <= j < |gs| ensures IsGraph(gs[j], fs[j], more) {
      assert IsGraph(gs[j], fs[j], order);
      GivenStay(gs[j].edges, fs[j].commands, order, more, gs[j].symbol);
    }
  }

  lemma GraphsJoined<G>(gs: seq<Graph>, fs: seq<Function<G>>, order: seq<G>, g: Graph, f: Function<G>)
    requires AreGraphs(gs, fs, order) && IsGraph(g, f, order)
    ensures AreGraphs(gs + [g], fs + [f], order)
  {
    forall j | 0 <= j <= |gs| ensures IsGraph((gs + [g])[j], (fs + [f])[j], order) {
      assert j < |gs| ==> IsGraph(gs[j], fs[j], order);
    }
  }

  lemma LocalGiven<G>(kinds: seq<seq<Edge>>, cs: seq<Command<G>>, c: Command<G>, order: seq<G>, symbol: nat)
    requires AreGiven(kinds, cs, order, symbol) && c.NewLocal?
    ensures AreGiven(kinds, cs + [c], order, symbol) && NamesIn(cs + [c]) == NamesIn(cs) + [c.name]
  {
    assert (cs + [c])[..|cs|] == cs;
    forall k | 0 <= k < KINDS ensures AreLinks(kinds[k], LinksIn(cs + [c], k), order, symbol) {
      assert AreLinks(kinds[k], LinksIn(cs, k), order, symbol);
    }
  }

  lemma EdgeGiven<G>(kinds: seq<seq<Edge>>, cs: seq<Command<G>>, c: Command<G>, e: Edge, order: seq<G>, symbol: nat)
    requires AreGiven(kinds, cs, order, symbol) && c.NewEdge? && c.kind < KINDS && IsLink(e, c.link, order, symbol)
    ensures AreGiven(kinds[c.kind := kinds[c.kind] + [e]], cs + [c], order, symbol) && NamesIn(cs + [c]) == NamesIn(cs)
  {
    assert (cs + [c])[..|cs|] == cs;
    var kinds' := kinds[c.kind := kinds[c.kind] + [e]];
    forall k | 0 <= k < KINDS ensures AreLinks(kinds'[k], LinksIn(cs + [c], k), order, symbol) {
      var links, links' := LinksIn(cs, k), LinksIn(cs + [c], k);
      assert AreLinks(kinds[k], links, order, symbol);
      forall i | 0 <= i < |links'| ensures IsLink(kinds'[k][i], links'[i], order, symbol) {
        assert i < |links| ==> IsLink(kinds[k][i], links[i], order, symbol);
      }
    }
  }

  /** The node for an end of an edge. */
  method WriteEnd<G(==, !new)>(fw: FunctionWriter<G>, end: End<G>) returns (n: Node)
    requires fw.Valid() && EndOk(end, fw.numLocals) && |WithEnd(fw.gw.symbolsInOrder, end)| < TWO_32
    modifies fw.gw`symbols, fw.gw`symbolsInOrder
    ensures fw.Valid() && fw.gw.symbolsInOrder == WithEnd(old(fw.gw.symbolsInOrder), end)
    ensures IsEnd(n, end, fw.gw.symbolsInOrder, fw.symbolIdx)
    ensures OwnNode(n, fw.symbolIdx, fw.numLocals, |fw.gw.symbolsInOrder|)
  {
    match end
    case Global(global) =>
      var size := |WithEnd(fw.gw.symbolsInOrder, end)|;
      EdgesStayOk(fw.given, fw.symbolIdx, fw.numLocals, |fw.gw.symbolsInOrder|, fw.numLocals, size);
      n := fw.gw.Symbol(global);
    case Own(idx) =>
      n := Node.Local(fw.symbolIdx, idx);
  }

  /** These commands are what the active function was told so far. */
  ghost predicate Built<G(!new)>(fw: FunctionWriter<G>, cs: seq<Command<G>>)
    reads fw, fw.gw
  {
    && fw.Valid()
    && fw.gw.pending == NamesIn(cs)
    && AreGiven(fw.given, cs, fw.gw.symbolsInOrder, fw.symbolIdx)
  }

  /** The tables have room for one more command. */
  ghost predicate HasRoom<G(!new)>(order: seq<G>, strings: seq<string>, named: bool, c: Command<G>) {
    && |GlobalsAfter(order, [c])| < TWO_31
    && |BlobOf(StringsAfter(strings, [c], named))| < TWO_32
  }

  method WriteLocal<G(==, !new)>(fw: FunctionWriter<G>, ghost done: seq<Command<G>>, name: string)
    requires Built(fw, done) && |NamesIn(done)| + 1 < TWO_16
    requires fw.gw.recordDebugData ==> |BlobOf(Added(fw.gw.strings, name))| < TWO_32
    modifies fw`numLocals, fw.gw
    ensures Built(fw, done + [NewLocal(name)])
    ensures fw.gw.graphs == old(fw.gw.graphs) && fw.gw.symbolsInOrder == old(fw.gw.symbolsInOrder)
    ensures fw.gw.strings == if fw.gw.recordDebugData then Added(old(fw.gw.strings), name) else old(fw.gw.strings)
  {
    LocalGiven(fw.given, done, NewLocal(name), fw.gw.symbolsInOrder, fw.symbolIdx);
    var n := fw.FreshLocal(name);
  }

  method WriteEdge<G(==, !new)>(fw: FunctionWriter<G>, ghost done: seq<Command<G>>, kind: nat, link: Link<G>)
    requires Built(fw, done) && CommandOk(NewEdge(kind, link), |NamesIn(done)|)
    requires |WithEnd(WithEnd(fw.gw.symbolsInOrder, link.to), link.from)| < TWO_31
    modifies fw`edges, fw`given, fw.gw`symbols, fw.gw`symbolsInOrder
    ensures Built(fw, done + [NewEdge(kind, link)])
    ensures fw.gw.symbolsInOrder == WithEnd(WithEnd(old(fw.gw.symbolsInOrder), link.to), link.from)
  {
    hide Interned, HoldsStream, NamesOf, BlobOf, AreGiven, IsEnd;
    var to := WriteEnd(fw, link.to);
    var from := WriteEnd(fw, link.from);
    var e := Edge(to, from, link.idx);
    GivenStay(fw.given, done, old(fw.gw.symbolsInOrder), fw.gw.symbolsInOrder, fw.symbolIdx);
    EdgeGiven(fw.given, done, NewEdge(kind, link), e, fw.gw.symbolsInOrder, fw.symbolIdx);
    fw.AddEdge(kind, e);
  }

  lemma OneCommand<G>(order: seq<G>, strings: seq<string>, c: Command<G>, named: bool)
    ensures GlobalsAfter(order, [c]) == if c.NewEdge? then WithEnd(WithEnd(order, c.link.to), c.link.from) else order
    ensures StringsAfter(strings, [c], named) == if c.NewLocal? && named then Added(strings, c.name) else strings
  {
    assert [c][..|[c]| - 1] == [];
  }

  method WriteCommand<G(==, !new)>(fw: FunctionWriter<G>, ghost done: seq<Command<G>>, c: Command<G>)
    requires Built(fw, done) && CommandOk(c, |NamesIn(done)|)
    requires HasRoom(fw.gw.symbolsInOrder, fw.gw.strings, fw.gw.recordDebugData, c)
    modifies fw`numLocals, fw`edges, fw`given, fw.gw
    ensures Built(fw, done + [c]) && fw.gw.graphs == old(fw.gw.graphs)
    ensures fw.gw.symbolsInOrder == GlobalsAfter(old(fw.gw.symbolsInOrder), [c])
    ensures fw.gw.strings == StringsAfter(old(fw.gw.strings), [c], fw.gw.recordDebugData)
  {
    hide Built, AreGiven;
    OneCommand(fw.gw.symbolsInOrder, fw.gw.strings, c, fw.gw.recordDebugData);
    match c
    case NewLocal(name) => WriteLocal(fw, done, name);
    case NewEdge(kind, link) => WriteEdge(fw, done, kind, link);
  }

  lemma CommandNext<G>(order: seq<G>, strings: seq<string>, cs: seq<Command<G>>, named: bool, i: nat)
    requires i < |cs|
    ensures cs[..i + 1] == cs[..i] + [cs[i]]
    ensures GlobalsAfter(order, cs[..i + 1]) == GlobalsAfter(GlobalsAfter(order, cs[..i]), [cs[i]])
    ensures StringsAfter(strings, cs[..i + 1], named)
      == StringsAfter(StringsAfter(strings, cs[..i], named), [cs[i]], named)
    ensures GlobalsAfter(order, cs[..i + 1]) <= GlobalsAfter(order, cs)
    ensures |BlobOf(StringsAfter(strings, cs[..i + 1], named))| <= |BlobOf(StringsAfter(strings, cs, named))|
  {
    assert cs[..i + 1][..i] == cs[..i] && [cs[i]][..0] == [];
    GlobalsGrow(order, cs, i + 1);
    StringsGrow(strings, cs, named, i + 1);
    BlobOfPrefix(StringsAfter(strings, cs[..i + 1], named), StringsAfter(strings, cs, named));
  }

  /** All commands of a function. */
  method WriteCommands<G(==, !new)>(fw: FunctionWriter<G>, f: Function<G>)
    requires Built(fw, []) && FunctionOk(f)
    requires |GlobalsAfter(fw.gw.symbolsInOrder, f.commands)| < TWO_31
    requires |BlobOf(StringsAfter(fw.gw.strings, f.commands, fw.gw.recordDebugData))| < TWO_32
    modifies fw`numLocals, fw`edges, fw`given, fw.gw
    ensures Built(fw, f.commands) && fw.gw.graphs == old(fw.gw.graphs)
    ensures fw.gw.symbolsInOrder == GlobalsAfter(old(fw.gw.symbolsInOrder), f.commands)
    ensures fw.gw.strings == StringsAfter(old(fw.gw.strings), f.commands, fw.gw.recordDebugData)
  {
    hide Built, BlobOf, GlobalsAfter, StringsAfter, NamesIn, LinksIn;
    ghost var order, strings, cs := fw.gw.symbolsInOrder, fw.gw.strings, f.commands;
    NoCommands(order, strings, cs, fw.gw.recordDebugData);
    for i := 0 to |f.commands|
      invariant Built(fw, cs[..i]) && fw.gw.graphs == old(fw.gw.graphs)
      invariant fw.gw.symbolsInOrder == GlobalsAfter(order, cs[..i])
      invariant fw.gw.strings == StringsAfter(strings, cs[..i], fw.gw.recordDebugData)
    {
      CommandNext(order, strings, cs, fw.gw.recordDebugData, i);
      WriteCommand(fw, cs[..i], f.commands[i]);
    }
    WholeSlice(cs);
  }

  lemma NoCommands<G>(order: seq<G>, strings: seq<string>, cs: seq<Command<G>>, named: bool)
    ensures cs[..0] == [] && GlobalsAfter(order, cs[..0]) == order && StringsAfter(strings, cs[..0], named) == strings
  {
  }

  /** A sort for the edges of every function and kind: any permutation. */
  ghost predicate Permutes(sort: (nat, nat, seq<RawEdge>) -> seq<RawEdge>) {
    forall j, k, es :: multiset(sort(j, k, es)) == multiset(es)
  }

  lemma FunctionFits<G>(order: seq<G>, strings: seq<string>, f: Function<G>, named: bool)
    ensures |order| <= |GlobalsAfter(Added(order, f.global), f.commands)|
    ensures Added(order, f.global) <= GlobalsAfter(Added(order, f.global), f.commands)
    ensures |BlobOf(Added(Added(strings, f.component), f.version))|
      <= |BlobOf(StringsAfter(Added(Added(strings, f.component), f.version), f.commands, named))|
  {
    var begun := Added(Added(strings, f.component), f.version);
    GlobalsGrow(Added(order, f.global), f.commands, 0);
    StringsGrow(begun, f.commands, named, 0);
    BlobOfPrefix(begun, StringsAfter(begun, f.commands, named));
  }

  lemma NothingBuilt<G(!new)>(fw: FunctionWriter<G>)
    requires fw.Valid() && fw.numLocals == 0 && fw.given == seq(KINDS, _ => [])
    ensures Built(fw, [])
  {
    forall k | 0 <= k < KINDS ensures AreLinks(fw.given[k], LinksIn([], k), fw.gw.symbolsInOrder, fw.symbolIdx) {
    }
  }

  /** As many edges of each kind as were given. */
  lemma EdgeCounts<G(!new)>(fw: FunctionWriter<G>, f: Function<G>, k: nat)
    requires Built(fw, f.commands) && FunctionOk(f) && k < KINDS
    ensures k < |fw.edges| && |fw.edges[k]| < TWO_32
  {
    assert AreLinks(fw.given[k], LinksIn(f.commands, k), fw.gw.symbolsInOrder, fw.symbolIdx);
    assert fw.edges[k] == EncodeEdges(fw.given[k]);
  }

  /** A function from start to end; `j` is its number in the file. */
  method WriteFunction<G(==, !new)>(
      gw: GraphWriter<G>, f: Function<G>, j: nat, sort: (nat, nat, seq<RawEdge>) -> seq<RawEdge>)
    requires gw.Valid() && !gw.hasActiveFunctionWriter && FunctionOk(f) && Permutes(sort)
    requires |GlobalsAfter(Added(gw.symbolsInOrder, f.global), f.commands)| < TWO_31
    requires |BlobOf(StringsAfter(
      Added(Added(gw.strings, f.component), f.version), f.commands, gw.recordDebugData))| < TWO_32
    modifies gw
    ensures gw.Valid() && !gw.hasActiveFunctionWriter
    ensures gw.symbolsInOrder == GlobalsAfter(Added(old(gw.symbolsInOrder), f.global), f.commands)
    ensures gw.strings ==
      StringsAfter(Added(Added(old(gw.strings), f.component), f.version), f.commands, gw.recordDebugData)
    ensures |gw.graphs| == |old(gw.graphs)| + 1 && gw.graphs[..|old(gw.graphs)|] == old(gw.graphs)
    ensures IsGraph(gw.graphs[|old(gw.graphs)|], f, gw.symbolsInOrder)
  {
    hide BlobOf, GlobalsAfter, StringsAfter, Added, NamesIn, LinksIn, AreGiven, Interned, HoldsStream, NamesOf;
    FunctionFits(gw.symbolsInOrder, gw.strings, f, gw.recordDebugData);
    var fw := new FunctionWriter(gw, f.global, f.component, f.version);
    NothingBuilt(fw);
    WriteCommands(fw, f);
    forall k | 0 <= k < KINDS ensures k < |fw.edges| && |fw.edges[k]| < TWO_32 {
      EdgeCounts(fw, f, k);
    }
    var edges := fw.edges;
    fw.Finish(f.numAllocas, seq(KINDS, k requires 0 <= k < KINDS => sort(j, k, edges[k])));
  }

  /** A file with these functions, from an empty writer. */
  method WriteFile<G(==, !new)>(fs: seq<Function<G>>, named: bool, sort: (nat, nat, seq<RawEdge>) -> seq<RawEdge>)
    returns (gw: GraphWriter<G>)
    requires Permutes(sort) && forall j | 0 <= j < |fs| :: FunctionOk(fs[j])
    requires |AllGlobals(fs)| < TWO_31 && |BlobOf(AllStrings(fs, named))| < TWO_32
    ensures gw.Valid() && !gw.hasActiveFunctionWriter && gw.recordDebugData == named
    ensures gw.symbolsInOrder == AllGlobals(fs) && gw.strings == AllStrings(fs, named)
    ensures AreGraphs(gw.graphs, fs, gw.symbolsInOrder)
  {
    hide Permutes, FunctionOk, GraphWriter.Valid, BlobOf, AllGlobals, AllStrings, AreGraphs, IsGraph;
    gw := new GraphWriter<G>(named);
    NoFunctions(fs, named);
    for j := 0 to |fs|
      invariant fresh(gw) && gw.Valid() && !gw.hasActiveFunctionWriter && gw.recordDebugData == named
      invariant gw.symbolsInOrder == AllGlobals(fs[..j]) && gw.strings == AllStrings(fs[..j], named)
      invariant AreGraphs(gw.graphs, fs[..j], gw.symbolsInOrder)
    {
      ghost var gs, order := gw.graphs, gw.symbolsInOrder;
      FunctionNext(fs, named, j);
      WriteFunction(gw, fs[j], j, sort);
      GraphsNext(gs, gw.graphs, fs, j, order, gw.symbolsInOrder);
    }
    WholeSlice(fs);
  }

  lemma NoFunctions<G>(fs: seq<Function<G>>, named: bool)
    ensures fs[..0] == [] && AllGlobals(fs[..0]) == [] && AllStrings(fs[..0], named) == []
    ensures AreGraphs([], fs[..0], AllGlobals(fs[..0]))
  {
  }

  lemma FunctionNext<G>(fs: seq<Function<G>>, named: bool, j: nat)
    requires j < |fs|
    ensures AllGlobals(fs[..j + 1]) == GlobalsAfter(Added(AllGlobals(fs[..j]), fs[j].global), fs[j].commands)
    ensures AllGlobals(fs[..j]) <= AllGlobals(fs[..j + 1]) <= AllGlobals(fs)
    ensures AllStrings(fs[..j + 1], named) ==
      StringsAfter(Added(Added(AllStrings(fs[..j], named), fs[j].component), fs[j].version), fs[j].commands, named)
    ensures |BlobOf(AllStrings(fs[..j + 1], named))| <= |BlobOf(AllStrings(fs, named))|
  {
    assert fs[..j + 1][..j] == fs[..j];
    FunctionGrows(AllGlobals(fs[..j]), AllStrings(fs[..j], named), fs[j], named);
    FileGrows(fs, named, j + 1);
    BlobOfPrefix(AllStrings(fs[..j + 1], named), AllStrings(fs, named));
  }

  lemma GraphsNext<G>(gs: seq<Graph>, gs': seq<Graph>, fs: seq<Function<G>>, j: nat, order: seq<G>, order': seq<G>)
    requires j < |fs| && AreGraphs(gs, fs[..j], order) && order <= order'
    requires |gs'| == |gs| + 1 && gs'[..|gs|] == gs && IsGraph(gs'[|gs|], fs[j], order')
    ensures AreGraphs(gs', fs[..j + 1], order')
  {
    GraphsStay(gs, fs[..j], order, order');
    GraphsJoined(gs, fs[..j], order', gs'[|gs|], fs[j]);
    assert gs' == gs + [gs'[|gs|]] && fs[..j + 1] == fs[..j] + [fs[j]];
  }

  // ---------------------------------------------------------------------------------------
  // Reading
  // ---------------------------------------------------------------------------------------

  /** The node that a reader should see: addresses for globals, and locals of the function itself. */
  function ShownEnd<G>(end: End<G>, address: G -> nat, function_: nat): Node {
    match end
    case Global(global) => Node.Symbol(address(global))
    case Own(idx) => Node.Local(function_, idx)
  }

  function ShownLink<G>(link: Link<G>, address: G -> nat, function_: nat): Edge {
    Edge(ShownEnd(link.to, address, function_), ShownEnd(link.from, address, function_), link.idx)
  }

  function ShownLinks<G>(links: seq<Link<G>>, address: G -> nat, function_: nat): (es: seq<Edge>)
    ensures |es| == |links|
  {
    if links == [] then []
    else ShownLinks(links[..|links| - 1], address, function_) + [ShownLink(links[|links| - 1], address, function_)]
  }

  /** The visit of a kind sees exactly the edges that were given, as often as they were given. */
  ghost predicate ShowsKind<G>(
      info: FunctionInfo, f: Function<G>, k: nat, address: G -> nat, symbols: seq<nat>)
    requires k < KINDS == |info.edges|
  {
    && WholeEdges(Arity(k), info.edges[k])
    && var out := DecodeEdges(EdgesOf(Arity(k), info.edges[k], 0), info.function_, symbols);
       out.Some? && multiset(out.value) == multiset(ShownLinks(LinksIn(f.commands, k), address, info.function_))
  }

  /** What the reader hands out about a function is what was given to the writer. */
  ghost predicate ShowsFunction<G>(
      info: FunctionInfo, f: Function<G>, address: G -> nat, symbols: seq<nat>, named: bool)
  {
    && info.function_ == address(f.global)
    && info.numLocals == |NamesIn(f.commands)| && info.numAllocas == f.numAllocas
    && (info.sbom.Some? <==> f.component != "" && f.version != "")
    && (info.sbom.Some? ==> info.sbom.value.0 == f.component && info.sbom.value.1 == f.version)
    && NamesShown(info.debug, NamesIn(f.commands), named)
    && |info.edges| == KINDS
    && forall k {:trigger ShowsKind(info, f, k, address, symbols)} | 0 <= k < KINDS ::
         ShowsKind(info, f, k, address, symbols)
  }

  ghost predicate Addresses<G>(symbols: seq<nat>, order: seq<G>, address: G -> nat) {
    |symbols| == |order| && forall i | 0 <= i < |order| :: symbols[i] == address(order[i])
  }

  lemma {:induction false} LinksRelocated<G>(
      es: seq<Edge>, links: seq<Link<G>>, order: seq<G>, symbol: nat, address: G -> nat, symbols: seq<nat>)
    requires AreLinks(es, links, order, symbol) && Addresses(symbols, order, address) && symbol < |order|
    requires InRange(es, |symbols|)
    ensures RelocateEdges(es, symbols) == ShownLinks(links, address, symbols[symbol])
  {
    if es != [] {
      var n := |es| - 1;
      assert IsLink(es[n], links[n], order, symbol);
      forall i | 0 <= i < n ensures IsLink(es[..n][i], links[..n][i], order, symbol) {
        assert IsLink(es[i], links[i], order, symbol);
      }
      LinksRelocated(es[..n], links[..n], order, symbol, address, symbols);
    }
  }

  lemma FaithfulShows<G>(
      info: FunctionInfo, g: Graph, f: Function<G>, order: seq<G>, address: G -> nat, symbols: seq<nat>, named: bool)
    requires IsGraph(g, f, order) && Addresses(symbols, order, address) && g.symbol < |symbols|
    requires Faithful(info, g, symbols, named)
    ensures ShowsFunction(info, f, address, symbols, named)
  {
    forall k | 0 <= k < KINDS ensures ShowsKind(info, f, k, address, symbols) {
      assert AreLinks(g.edges[k], LinksIn(f.commands, k), order, g.symbol);
      assert WholeEdges(Arity(k), info.edges[k]) && InRange(g.edges[k], |symbols|);
      LinksRelocated(g.edges[k], LinksIn(f.commands, k), order, g.symbol, address, symbols);
    }
  }

  /** No function claims more allocas than it has locals. */
  ghost predicate AllocasOf<G>(fs: seq<Function<G>>) {
    forall j {:trigger fs[j]} | 0 <= j < |fs| :: fs[j].numAllocas <= |NamesIn(fs[j].commands)|
  }

  lemma SameAllocas<G>(gs: seq<Graph>, fs: seq<Function<G>>, order: seq<G>)
    requires AreGraphs(gs, fs, order)
    ensures AllocasOk(gs) <==> AllocasOf(fs)
  {
    forall j | 0 <= j < |gs| ensures gs[j].numAllocas == fs[j].numAllocas && gs[j].names == NamesIn(fs[j].commands) {
      assert IsGraph(gs[j], fs[j], order);
    }
  }

  /**
   Any functions, each built by any commands, come back from a file exactly as they were given, with the
   addresses of the globals, whatever the sort does; or the reader refuses, if a count of allocas is wrong.
   */
  method WriteAndRead<G(==, !new)>(
      fs: seq<Function<G>>, named: bool, sort: (nat, nat, seq<RawEdge>) -> seq<RawEdge>, address: G -> nat)
    returns (infos: seq<FunctionInfo>, symbols: seq<nat>, unread: seq<U32>, ok: bool)
    requires Permutes(sort) && forall j | 0 <= j < |fs| :: FunctionOk(fs[j]) && NulFreeFunction(fs[j], named)
    requires |AllGlobals(fs)| < TWO_31 && |BlobOf(AllStrings(fs, named))| < TWO_32
    requires forall global | global in AllGlobals(fs) :: Packable(Symbol(address(global)))
    ensures ok <==> AllocasOf(fs)
    ensures ok ==>
      && |infos| == |fs| && unread == []
      && forall j | 0 <= j < |fs| :: ShowsFunction(infos[j], fs[j], address, symbols, named)
  {
    hide Permutes, FunctionOk, GraphWriter.Valid, AllGlobals, AllStrings, AreGraphs, ShowsFunction, Faithful;
    var gw := WriteFile(fs, named, sort);
    var order := gw.symbolsInOrder;
    symbols := seq(|order|, i requires 0 <= i < |order| => address(order[i]));
    NulFreeStrings(fs, named);
    AllNulFreeIff(gw.strings);
    SameAllocas(gw.graphs, fs, order);
    infos, unread, ok := ReadBack(gw, symbols);
    if ok {
      AllShown(infos, gw.graphs, fs, order, address, symbols, named);
    }
  }

  lemma AllShown<G>(
      infos: seq<FunctionInfo>, gs: seq<Graph>, fs: seq<Function<G>>,
      order: seq<G>, address: G -> nat, symbols: seq<nat>, named: bool)
    requires AllFaithful(infos, gs, symbols, named) && AreGraphs(gs, fs, order) && Addresses(symbols, order, address)
    ensures |infos| == |fs|
    ensures forall j | 0 <= j < |fs| :: ShowsFunction(infos[j], fs[j], address, symbols, named)
  {
    forall j | 0 <= j < |fs| ensures ShowsFunction(infos[j], fs[j], address, symbols, named) {
      assert IsGraph(gs[j], fs[j], order) && Faithful(infos[j], gs[j], symbols, named);
      FaithfulShows(infos[j], gs[j], fs[j], order, address, symbols, named);
    }
  }
}
