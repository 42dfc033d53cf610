/**
 The tables of facts that the analysis reads: the edges of each function, what kinds of nodes they
 mention, and for a core dump the results of `dlsym` that the running program recorded.
 */
module EdgeFacts {
  import opened EdgeEncoding
  import opened SimpleRules
  import opened Sequences
  import opened DlsymRuns
  import Pages = DlsymPages

  // ---------------------------------------------------------------------------------------
  // The rows that edges become
  // ---------------------------------------------------------------------------------------

  /** The memory of a core dump: where the lists of pages start, by the symbol of the head, and the pages. */
  datatype Dump = Dump(heads: map<nat, Pages.Addr>, mem: map<Pages.Addr, Pages.Page>)

  ghost predicate ListOk(dump: Dump, lists: map<nat, seq<Pages.Addr>>, page: nat) {
    page in dump.heads ==> page in lists && IsList(dump.mem, dump.heads[page], lists[page])
  }

  /** `lists` are the pages of each list. */
  ghost predicate DumpOk(dump: Dump, lists: map<nat, seq<Pages.Addr>>) {
    forall page {:trigger ListOk(dump, lists, page)} :: ListOk(dump, lists, page)
  }

  predicate AllPackable(symbols: seq<nat>) {
    forall i | 0 <= i < |symbols| :: Packable(Symbol(symbols[i]))
  }

  /** The artificial edges from the recorded symbols. */
  function Assigns(output: Node, symbols: seq<nat>): seq<Edge> {
    if symbols == [] then []
    else Assigns(output, symbols[..|symbols| - 1]) + [Assign(output, Symbol(symbols[|symbols| - 1]))]
  }

  /** The rows that an edge becomes; None is an error. */
  ghost function RowsOf(dump: Dump, lists: map<nat, seq<Pages.Addr>>, e: Edge): Option<seq<Edge>>
    requires DumpOk(dump, lists)
  {
    if !e.DlsymPagePointer? then Some([e])
    else if e.page.Local? || e.page.symbol !in dump.heads then None
    else
      assert ListOk(dump, lists, e.page.symbol);
      var symbols := EntriesOf(dump.mem, lists[e.page.symbol], 0);
      if AllPackable(symbols) then Some(Assigns(e.output, symbols) + [e]) else None
  }

  ghost function AllRows(dump: Dump, lists: map<nat, seq<Pages.Addr>>, es: seq<Edge>): Option<seq<Edge>>
    requires DumpOk(dump, lists)
  {
    if es == [] then Some([])
    else
      var before, last := AllRows(dump, lists, es[..|es| - 1]), RowsOf(dump, lists, es[|es| - 1]);
      if before.Some? && last.Some? then Some(before.value + last.value) else None
  }

  lemma AssignsMore(output: Node, symbols: seq<nat>, i: nat)
    requires i < |symbols|
    ensures Assigns(output, symbols[..i + 1]) == Assigns(output, symbols[..i]) + [Assign(output, Symbol(symbols[i]))]
  {
    assert symbols[..i + 1][..i] == symbols[..i];
  }

  lemma {:induction false} AssignsHave(output: Node, symbols: seq<nat>, i: nat)
    requires i < |symbols|
    ensures Assign(output, Symbol(symbols[i])) in Assigns(output, symbols)
    decreases |symbols|
  {
    if i < |symbols| - 1 {
      AssignsHave(output, symbols[..|symbols| - 1], i);
    }
  }

  lemma RowsMore(dump: Dump, lists: map<nat, seq<Pages.Addr>>, es: seq<Edge>, i: nat)
    requires DumpOk(dump, lists) && i < |es|
    ensures
      var before, next := AllRows(dump, lists, es[..i]), RowsOf(dump, lists, es[i]);
      AllRows(dump, lists, es[..i + 1]) == if before.Some? && next.Some? then Some(before.value + next.value) else None
  {
    assert es[..i + 1][..i] == es[..i];
  }

  /** An error in the first edges is an error in all of them. */
  lemma {:induction false} RowsGoOn(dump: Dump, lists: map<nat, seq<Pages.Addr>>, es: seq<Edge>, i: nat)
    requires DumpOk(dump, lists) && i <= |es|
    requires AllRows(dump, lists, es[..i]).None?
    ensures AllRows(dump, lists, es).None?
    decreases |es| - i
  {
    if i == |es| {
      WholeSlice(es);
    } else {
      RowsMore(dump, lists, es, i);
      RowsGoOn(dump, lists, es, i + 1);
    }
  }

  /** All rows of each edge are among the rows. */
  lemma {:induction false} RowsHave(dump: Dump, lists: map<nat, seq<Pages.Addr>>, es: seq<Edge>, i: nat)
    requires DumpOk(dump, lists) && AllRows(dump, lists, es).Some? && i < |es|
    ensures RowsOf(dump, lists, es[i]).Some?
    ensures forall row | row in RowsOf(dump, lists, es[i]).value :: row in AllRows(dump, lists, es).value
    decreases |es|
  {
    if i < |es| - 1 {
      RowsHave(dump, lists, es[..|es| - 1], i);
    }
  }

  // ---------------------------------------------------------------------------------------
  // What the tables say about nodes
  // ---------------------------------------------------------------------------------------

  function SymbolOf(n: Node): Node {
    Symbol(n.symbol)
  }

  /** The nodes of the rows, and their symbols. */
  function NodesOf(rows: seq<Edge>): set<Node> {
    if rows == [] then {}
    else
      var (a, b) := Ends(rows[|rows| - 1]);
      NodesOf(rows[..|rows| - 1]) + {a, SymbolOf(a)} + {b, SymbolOf(b)}
  }

  predicate MentionedIn(rows: seq<Edge>, m: Node) {
    exists e :: e in rows && Mentions(e, m)
  }

  lemma {:induction false} NodesOfIff(rows: seq<Edge>, n: Node)
    ensures n in NodesOf(rows) <==> exists m :: MentionedIn(rows, m) && (n == m || n == SymbolOf(m))
  {
    if rows != [] {
      var init, last := rows[..|rows| - 1], rows[|rows| - 1];
      NodesOfIff(init, n);
      assert rows == init + [last];
      forall m ensures MentionedIn(rows, m) <==> MentionedIn(init, m) || Mentions(last, m) {
        MentionedMore(init, last, m);
      }
      var (a, b) := Ends(last);
      assert Mentions(last, a) && Mentions(last, b);
    }
  }

  lemma MentionedMore(init: seq<Edge>, last: Edge, m: Node)
    ensures MentionedIn(init + [last], m) <==> MentionedIn(init, m) || Mentions(last, m)
  {
    if MentionedIn(init, m) {
      var e :| e in init && Mentions(e, m);
      assert e in init + [last];
    } else if Mentions(last, m) {
      assert last in init + [last];
    }
  }

  /** `rows` lists the elements, each of them once. */
  ghost predicate Lists<T(!new)>(rows: seq<T>, elements: set<T>) {
    Distinct(rows) && forall x :: x in rows <==> x in elements
  }

  lemma ListsMore<T(!new)>(rows: seq<T>, elements: set<T>, x: T)
    requires Lists(rows, elements) && x !in elements
    ensures Lists(rows + [x], elements + {x})
  {
    assert x !in rows;
  }

  datatype NodeTables = NodeTables(symbols: seq<Node>, allocas: seq<Node>, enclosing: seq<(Node, Node)>)

  ghost function SymbolsIn(nodes: set<Node>): set<Node> {
    set n | n in nodes && n.Symbol?
  }

  ghost function AllocasIn(nodes: set<Node>, numAllocas: nat): set<Node> {
    set n | n in nodes && n.Local? && n.idx < numAllocas
  }

  ghost function LocalsIn(nodes: set<Node>, function_: nat): set<(Node, Node)> {
    set n | n in nodes && n.Local? :: (Symbol(function_), n)
  }

  /** The tables of a function have one row for each of the nodes that should be in them. */
  ghost predicate Describe(t: NodeTables, nodes: set<Node>, function_: nat, numAllocas: nat) {
    && Lists(t.symbols, SymbolsIn(nodes))
    && Lists(t.allocas, AllocasIn(nodes, numAllocas))
    && Lists(t.enclosing, LocalsIn(nodes, function_))
  }

  lemma DescribeSymbol(t: NodeTables, nodes: set<Node>, function_: nat, numAllocas: nat, n: Node)
    requires Describe(t, nodes, function_, numAllocas) && n !in nodes && n.Symbol?
    ensures Describe(t.(symbols := t.symbols + [n]), nodes + {n}, function_, numAllocas)
  {
    ListsMore(t.symbols, SymbolsIn(nodes), n);
    assert SymbolsIn(nodes + {n}) == SymbolsIn(nodes) + {n};
    assert AllocasIn(nodes + {n}, numAllocas) == AllocasIn(nodes, numAllocas);
    assert LocalsIn(nodes + {n}, function_) == LocalsIn(nodes, function_);
  }

  lemma DescribeLocal(t: NodeTables, nodes: set<Node>, function_: nat, numAllocas: nat, n: Node)
    requires Describe(t, nodes, function_, numAllocas) && n !in nodes && n.Local?
    ensures
      var allocas := if n.idx < numAllocas then t.allocas + [n] else t.allocas;
      Describe(
        NodeTables(t.symbols, allocas, t.enclosing + [(Symbol(function_), n)]), nodes + {n}, function_, numAllocas)
  {
    if n.idx < numAllocas {
      ListsMore(t.allocas, AllocasIn(nodes, numAllocas), n);
      assert AllocasIn(nodes + {n}, numAllocas) == AllocasIn(nodes, numAllocas) + {n};
    } else {
      assert AllocasIn(nodes + {n}, numAllocas) == AllocasIn(nodes, numAllocas);
    }
    ListsMore(t.enclosing, LocalsIn(nodes, function_), (Symbol(function_), n));
    assert LocalsIn(nodes + {n}, function_) == LocalsIn(nodes, function_) + {(Symbol(function_), n)};
    assert SymbolsIn(nodes + {n}) == SymbolsIn(nodes);
  }

  /** The nodes that `emitNodeInfo` adds to those seen. */
  function NewNodes(n: Node, seen: set<Node>): set<Node> {
    if n in seen then {} else {n, SymbolOf(n)} - seen
  }

  /** With a node, its symbol has been seen. */
  predicate Closed(seen: set<Node>) {
    forall n | n in seen :: SymbolOf(n) in seen
  }

  datatype Function = Function(symbol: nat, name: string, numAllocas: nat, edges: seq<Edge>)

  datatype Files = Files(name: string, nodes: NodeTables, edges: seq<Edge>)

  class EdgeOutputVisitor {
    const dump: Dump
    /** The current function. */
    var function_: nat
    var numAllocas: nat
    var seenNodes: set<Node>
    var tables: NodeTables
    var edgeRows: seq<Edge>
    ghost const lists: map<nat, seq<Pages.Addr>>

    ghost predicate Valid()
      reads this
    {
      && DumpOk(dump, lists)
      && Closed(seenNodes) && seenNodes == NodesOf(edgeRows)
      && Describe(tables, seenNodes, function_, numAllocas)
    }

    constructor (dump: Dump, ghost lists: map<nat, seq<Pages.Addr>>)
      requires DumpOk(dump, lists)
      ensures Valid() && this.dump == dump && this.lists == lists
    {
      this.dump, this.lists := dump, lists;
      function_, numAllocas, seenNodes := 0, 0, {};
      tables, edgeRows := NodeTables([], [], []), [];
    }

    /** Start with empty tables. */
    method EnterFunction(symbol: nat, numAllocas: nat)
      requires Valid()
      modifies this
      ensures Valid() && function_ == symbol && this.numAllocas == numAllocas && edgeRows == []
    {
      function_, this.numAllocas := symbol, numAllocas;
      seenNodes := {};
      tables, edgeRows := NodeTables([], [], []), [];
    }

    /** The rows about a node, and before them those about its symbol. `listed` are the nodes that have their rows. */
    method EmitNodeInfo(n: Node, ghost listed: set<Node>)
      requires listed <= seenNodes && Describe(tables, listed, function_, numAllocas)
      modifies `seenNodes, `tables
      ensures seenNodes == old(seenNodes) + NewNodes(n, old(seenNodes))
      ensures Describe(tables, listed + NewNodes(n, old(seenNodes)), function_, numAllocas)
      decreases if n in seenNodes then 0 else if n.Symbol? then 1 else 2
    {
      if n in seenNodes {
        assert listed + {} == listed;
        return;
      }
      seenNodes := seenNodes + {n};
      EmitNodeInfo(Symbol(n.symbol), listed);
      ghost var described := listed + NewNodes(Symbol(n.symbol), old(seenNodes) + {n});
      assert described + {n} == listed + NewNodes(n, old(seenNodes));
      if n.Local? {
        DescribeLocal(tables, described, function_, numAllocas, n);
        if n.idx < numAllocas {
          tables := tables.(allocas := tables.allocas + [n]);
        }
        tables := tables.(enclosing := tables.enclosing + [(Symbol(function_), n)]);
      } else {
        DescribeSymbol(tables, described, function_, numAllocas, n);
        tables := tables.(symbols := tables.symbols + [n]);
      }
    }

    /** A row for the edge, and those about its nodes. */
    method PrintEdge(e: Edge)
      requires Valid()
      modifies `seenNodes, `tables, `edgeRows
      ensures Valid() && edgeRows == old(edgeRows) + [e]
    {
      var (a, b) := Ends(e);
      ghost var seen := seenNodes;
      edgeRows := edgeRows + [e];
      assert edgeRows[..|edgeRows| - 1] == old(edgeRows);
      EmitNodeInfo(a, seenNodes);
      EmitBoth(seen, a, b);
      EmitNodeInfo(b, seenNodes);
    }

    /** Printing an edge, or the artificial edges from what is recorded in a list of pages. */
    method VisitEdge(e: Edge) returns (ok: bool)
      requires Valid()
      modifies `seenNodes, `tables, `edgeRows
      ensures ok <==> RowsOf(dump, lists, e).Some?
      ensures ok ==> Valid() && edgeRows == old(edgeRows) + RowsOf(dump, lists, e).value
    {
      if e.DlsymPagePointer? {
        if e.page.Local? || e.page.symbol !in dump.heads {
          return false;
        }
        assert ListOk(dump, lists, e.page.symbol);
        var symbols := Walk(dump.mem, dump.heads[e.page.symbol], lists[e.page.symbol]);
        ok := PrintAssigns(e.output, symbols);
        if !ok {
          return;
        }
        Associative(old(edgeRows), Assigns(e.output, symbols), [e]);
      }
      PrintEdge(e);
      ok := true;
    }

    method PrintAssigns(output: Node, symbols: seq<nat>) returns (ok: bool)
      requires Valid()
      modifies `seenNodes, `tables, `edgeRows
      ensures ok <==> AllPackable(symbols)
      ensures ok ==> Valid() && edgeRows == old(edgeRows) + Assigns(output, symbols)
    {
      EmptyUnit(edgeRows);
      for i := 0 to |symbols|
        invariant Valid() && AllPackable(symbols[..i])
        invariant edgeRows == old(edgeRows) + Assigns(output, symbols[..i])
      {
        if !Packable(Symbol(symbols[i])) {
          return false;
        }
        AssignsMore(output, symbols, i);
        Associative(old(edgeRows), Assigns(output, symbols[..i]), [Assign(output, Symbol(symbols[i]))]);
        PrintEdge(Assign(output, Symbol(symbols[i])));
      }
      WholeSlice(symbols);
      ok := true;
    }

    /** All edges of a function, in order. */
    method VisitFunction(f: Function) returns (ok: bool)
      requires Valid()
      modifies this
      ensures ok <==> AllRows(dump, lists, f.edges).Some?
      ensures ok ==> Valid() && edgeRows == AllRows(dump, lists, f.edges).value
      ensures ok ==> function_ == f.symbol && numAllocas == f.numAllocas
    {
      EnterFunction(f.symbol, f.numAllocas);
      for i := 0 to |f.edges|
        invariant Valid() && function_ == f.symbol && numAllocas == f.numAllocas
        invariant AllRows(dump, lists, f.edges[..i]) == Some(edgeRows)
      {
        RowsMore(dump, lists, f.edges, i);
        ok := VisitEdge(f.edges[i]);
        if !ok {
          RowsGoOn(dump, lists, f.edges, i + 1);
          return;
        }
      }
      WholeSlice(f.edges);
      ok := true;
    }
  }

  lemma EmitBoth(seen: set<Node>, a: Node, b: Node)
    requires Closed(seen)
    ensures
      var first := seen + NewNodes(a, seen);
      var both := first + NewNodes(b, first);
      Closed(both) && both == seen + {a, SymbolOf(a)} + {b, SymbolOf(b)}
  {
  }

  // ---------------------------------------------------------------------------------------
  // All functions
  // ---------------------------------------------------------------------------------------

  /** The files of a function have these rows, and describe the nodes in them. */
  ghost predicate FilesOk(files: Files, f: Function, rows: seq<Edge>) {
    files.name == f.name && files.edges == rows && Describe(files.nodes, NodesOf(rows), f.symbol, f.numAllocas)
  }

  /** The last function with a symbol, from the first `n`: its files replace those of the others. */
  function LastOf(fs: seq<Function>, symbol: nat): Option<Function> {
    if fs == [] then None
    else if fs[|fs| - 1].symbol == symbol then Some(fs[|fs| - 1])
    else LastOf(fs[..|fs| - 1], symbol)
  }

  ghost predicate PrintedAs(
      dump: Dump, lists: map<nat, seq<Pages.Addr>>, files: map<nat, Files>, fs: seq<Function>, symbol: nat)
    requires DumpOk(dump, lists)
  {
    var f := LastOf(fs, symbol);
    if f.None? then symbol !in files
    else
      var rows := AllRows(dump, lists, f.value.edges);
      symbol in files && rows.Some? && FilesOk(files[symbol], f.value, rows.value)
  }

  /** The files of every function have its rows. */
  ghost predicate Printed(dump: Dump, lists: map<nat, seq<Pages.Addr>>, files: map<nat, Files>, fs: seq<Function>)
    requires DumpOk(dump, lists)
  {
    forall symbol {:trigger PrintedAs(dump, lists, files, fs, symbol)} :: PrintedAs(dump, lists, files, fs, symbol)
  }

  lemma PrintedMore(
      dump: Dump, lists: map<nat, seq<Pages.Addr>>, files: map<nat, Files>, fs: seq<Function>, f: Function, new_: Files)
    requires DumpOk(dump, lists) && Printed(dump, lists, files, fs)
    requires AllRows(dump, lists, f.edges).Some? && FilesOk(new_, f, AllRows(dump, lists, f.edges).value)
    ensures Printed(dump, lists, files[f.symbol := new_], fs + [f])
  {
    assert (fs + [f])[..|fs|] == fs;
    var files' := files[f.symbol := new_];
    forall symbol {:trigger PrintedAs(dump, lists, files', fs + [f], symbol)}
      ensures PrintedAs(dump, lists, files', fs + [f], symbol)
    {
      assert PrintedAs(dump, lists, files, fs, symbol);
    }
  }

  /** Print every function. It fails exactly when the rows of some function do. */
  method PrintAll(
      dump: Dump, ghost lists: map<nat, seq<Pages.Addr>>, fs: seq<Function>) returns (files: map<nat, Files>, ok: bool)
    requires DumpOk(dump, lists)
    ensures ok <==> forall i | 0 <= i < |fs| :: AllRows(dump, lists, fs[i].edges).Some?
    ensures ok ==> Printed(dump, lists, files, fs)
  {
    files := map[];
    var visitor := new EdgeOutputVisitor(dump, lists);
    for i := 0 to |fs|
      invariant fresh(visitor) && visitor.Valid() && visitor.dump == dump && visitor.lists == lists
      invariant forall j | 0 <= j < i :: AllRows(dump, lists, fs[j].edges).Some?
      invariant Printed(dump, lists, files, fs[..i])
    {
      ok := visitor.VisitFunction(fs[i]);
      if !ok {
        return;
      }
      var printed := Files(fs[i].name, visitor.tables, visitor.edgeRows);
      PrintedMore(dump, lists, files, fs[..i], fs[i], printed);
      assert fs[..i] + [fs[i]] == fs[..i + 1];
      files := files[fs[i].symbol := printed];
    }
    WholeSlice(fs);
    ok := true;
  }

  // ---------------------------------------------------------------------------------------
  // The input of the analysis
  // ---------------------------------------------------------------------------------------

  const GLOBALS := "bracelet_reachability_globals"

  predicate PartAt(s: string, part: string, i: nat) {
    i + |part| <= |s| && s[i..i + |part|] == part
  }

  predicate IsGlobals(files: Files) {
    exists i | 0 <= i <= |files.name| :: PartAt(files.name, GLOBALS, i)
  }

  /** The files of all functions, put together: the tables of the initialisers of globals are kept apart. */
  function ProgramOf(files: map<nat, Files>): Program {
    Program(
      map f | f in files && !IsGlobals(files[f]) :: set e | e in files[f].edges,
      set f, e | f in files && IsGlobals(files[f]) && e in files[f].edges :: e,
      map f | f in files :: files[f].name,
      set f | f in files && (files[f].name == "main" || IsGlobals(files[f])))
  }

  ghost predicate InIsSymbol(files: map<nat, Files>, n: Node) {
    exists f :: f in files && !IsGlobals(files[f]) && n in files[f].nodes.symbols
  }

  ghost predicate InEnclosing(files: map<nat, Files>, row: (Node, Node)) {
    exists f :: f in files && !IsGlobals(files[f]) && row in files[f].nodes.enclosing
  }

  lemma SymbolRows(files: map<nat, Files>, f: nat, fn: Function, rows: seq<Edge>, n: Node)
    requires f in files && FilesOk(files[f], fn, rows)
    ensures n in files[f].nodes.symbols <==>
      n.Symbol? && exists m :: MentionedIn(rows, m) && (m == n || (m.Local? && m.symbol == n.symbol))
  {
    NodesOfIff(rows, n);
    assert n in files[f].nodes.symbols <==> n in SymbolsIn(NodesOf(rows));
    forall m {:trigger MentionedIn(rows, m)} | n.Symbol?
      ensures (n == m || n == SymbolOf(m)) <==> (m == n || (m.Local? && m.symbol == n.symbol))
    {
    }
  }

  lemma EnclosingRows(files: map<nat, Files>, f: nat, fn: Function, rows: seq<Edge>, a: Node, n: Node)
    requires f in files && FilesOk(files[f], fn, rows)
    ensures (a, n) in files[f].nodes.enclosing <==> a == Symbol(fn.symbol) && n.Local? && MentionedIn(rows, n)
  {
    NodesOfIff(rows, n);
    assert (a, n) in files[f].nodes.enclosing <==> (a, n) in LocalsIn(NodesOf(rows), fn.symbol);
  }

  /** The function whose rows are in the files of `f`. */
  lemma FilesOf(dump: Dump, lists: map<nat, seq<Pages.Addr>>, files: map<nat, Files>, fs: seq<Function>, f: nat)
    returns (fn: Function)
    requires DumpOk(dump, lists) && Printed(dump, lists, files, fs) && f in files
    ensures fn.symbol == f && LastOf(fs, f) == Some(fn) && AllRows(dump, lists, fn.edges).Some?
    ensures FilesOk(files[f], fn, AllRows(dump, lists, fn.edges).value)
  {
    assert PrintedAs(dump, lists, files, fs, f);
    fn := LastOf(fs, f).value;
    LastHasSymbol(fs, f);
  }

  lemma {:induction false} LastHasSymbol(fs: seq<Function>, symbol: nat)
    ensures LastOf(fs, symbol).Some? ==> LastOf(fs, symbol).value.symbol == symbol && LastOf(fs, symbol).value in fs
  {
    if fs != [] {
      LastHasSymbol(fs[..|fs| - 1], symbol);
    }
  }

  /** The pseudo-functions for the initialisers of globals are known by their names. */
  ghost predicate NamedGlobals(fn: Function) {
    exists i | 0 <= i <= |fn.name| :: PartAt(fn.name, "bracelet_reachability_globals", i)
  }

  /** One of the two columns of nodes of a row. */
  predicate HasColumn(e: Edge, n: Node) {
    match e
    case Assign(to, from) => n == to || n == from
    case Load(into, addr) => n == into || n == addr
    case Store(addr, value) => n == addr || n == value
    case Call(callsite, callee) => n == callsite || n == callee
    case Return(func, value) => n == func || n == value
    case ArgumentDefinition(value, func, _) => n == value || n == func
    case ArgumentSupply(callsite, value, _) => n == callsite || n == value
    case DlsymPagePointer(output, page) => n == output || n == page
  }

  /** What is printed for the functions with a symbol: the last of them has these rows. */
  ghost predicate IsPrinted(
      dump: Dump, lists: map<nat, seq<Pages.Addr>>, fs: seq<Function>, f: nat, fn: Function, rows: seq<Edge>)
    requires DumpOk(dump, lists)
  {
    LastOf(fs, f) == Some(fn) && AllRows(dump, lists, fn.edges) == Some(rows)
  }

  /**
   The edges of a function are those of its rows, apart from the initialisers of globals. The analysis starts at
   `main` and at the initialisers, and knows every function by its name.
   */
  lemma InputsOfAnalysis(
      dump: Dump, lists: map<nat, seq<Pages.Addr>>, files: map<nat, Files>, fs: seq<Function>, f: nat,
      fn: Function, rows: seq<Edge>)
    requires DumpOk(dump, lists) && Printed(dump, lists, files, fs) && IsPrinted(dump, lists, fs, f, fn, rows)
    ensures forall e :: Has(ProgramOf(files), f, e) <==> e in rows && !NamedGlobals(fn)
    ensures NamedGlobals(fn) ==> forall e | e in rows :: e in ProgramOf(files).globals
    ensures f in ProgramOf(files).roots <==> fn.name == "main" || NamedGlobals(fn)
    ensures f in ProgramOf(files).names && ProgramOf(files).names[f] == fn.name
    ensures forall n: Node | n.Local? ::
      EnclosingFunctionForLocal(ProgramOf(files), Symbol(f), n) <==>
      !NamedGlobals(fn) && exists e :: e in rows && HasColumn(e, n)
    ensures fn.name == "main" ==> Derives(ProgramOf(files), false, Reachable(Symbol(f)))
  {
    assert PrintedAs(dump, lists, files, fs, f);
    assert files[f].name == fn.name;
    assert IsGlobals(files[f]) <==> NamedGlobals(fn);
    forall e, n ensures HasColumn(e, n) <==> Mentions(e, n) {
    }
    forall e ensures Has(ProgramOf(files), f, e) <==> e in rows && !NamedGlobals(fn) {
    }
  }

  /** What is not the last function of any symbol leaves nothing behind. */
  lemma InputsAreFromFunctions(
      dump: Dump, lists: map<nat, seq<Pages.Addr>>, files: map<nat, Files>, fs: seq<Function>, f: nat, e: Edge)
    requires DumpOk(dump, lists) && Printed(dump, lists, files, fs)
    ensures f in ProgramOf(files).roots || f in ProgramOf(files).names || f in ProgramOf(files).code ==>
      LastOf(fs, f).Some?
    ensures e in ProgramOf(files).globals ==>
      exists g, fn, rows :: IsPrinted(dump, lists, fs, g, fn, rows) && NamedGlobals(fn) && e in rows
  {
    assert PrintedAs(dump, lists, files, fs, f);
    if e in ProgramOf(files).globals {
      var g :| g in files && IsGlobals(files[g]) && e in files[g].edges;
      assert PrintedAs(dump, lists, files, fs, g);
      var fn := LastOf(fs, g).value;
      assert IsPrinted(dump, lists, fs, g, fn, files[g].edges);
      assert NamedGlobals(fn);
    }
  }

  /** The printed tables are the relations that the rules take as input. */
  lemma TablesAreInputs(dump: Dump, lists: map<nat, seq<Pages.Addr>>, files: map<nat, Files>, fs: seq<Function>)
    requires DumpOk(dump, lists) && Printed(dump, lists, files, fs)
    ensures forall n :: InIsSymbol(files, n) <==> IsSymbol(ProgramOf(files), n)
    ensures forall f, n :: InEnclosing(files, (f, n)) <==> EnclosingFunctionForLocal(ProgramOf(files), f, n)
  {
    forall n ensures InIsSymbol(files, n) <==> IsSymbol(ProgramOf(files), n) {
      SymbolTableIsInput(dump, lists, files, fs, n);
    }
    forall f, n ensures InEnclosing(files, (f, n)) <==> EnclosingFunctionForLocal(ProgramOf(files), f, n) {
      EnclosingTableIsInput(dump, lists, files, fs, f, n);
    }
  }

  lemma SymbolTableIsInput(
      dump: Dump, lists: map<nat, seq<Pages.Addr>>, files: map<nat, Files>, fs: seq<Function>, n: Node)
    requires DumpOk(dump, lists) && Printed(dump, lists, files, fs)
    ensures InIsSymbol(files, n) <==> IsSymbol(ProgramOf(files), n)
  {
    var p := ProgramOf(files);
    if InIsSymbol(files, n) {
      var f :| f in files && !IsGlobals(files[f]) && n in files[f].nodes.symbols;
      var fn := FilesOf(dump, lists, files, fs, f);
      SymbolRows(files, f, fn, files[f].edges, n);
      var m :| MentionedIn(files[f].edges, m) && (m == n || (m.Local? && m.symbol == n.symbol));
      var e :| e in files[f].edges && Mentions(e, m);
      assert Has(p, f, e);
    }
    if IsSymbol(p, n) {
      var f, e, m :| Has(p, f, e) && Mentions(e, m) && (m == n || (m.Local? && m.symbol == n.symbol));
      var fn := FilesOf(dump, lists, files, fs, f);
      SymbolRows(files, f, fn, files[f].edges, n);
      assert MentionedIn(files[f].edges, m);
    }
  }

  lemma EnclosingTableIsInput(
      dump: Dump, lists: map<nat, seq<Pages.Addr>>, files: map<nat, Files>, fs: seq<Function>, a: Node, n: Node)
    requires DumpOk(dump, lists) && Printed(dump, lists, files, fs)
    ensures InEnclosing(files, (a, n)) <==> EnclosingFunctionForLocal(ProgramOf(files), a, n)
  {
    var p := ProgramOf(files);
    if InEnclosing(files, (a, n)) {
      var f :| f in files && !IsGlobals(files[f]) && (a, n) in files[f].nodes.enclosing;
      var fn := FilesOf(dump, lists, files, fs, f);
      EnclosingRows(files, f, fn, files[f].edges, a, n);
      var e :| e in files[f].edges && Mentions(e, n);
      assert Has(p, f, e);
    }
    if EnclosingFunctionForLocal(p, a, n) {
      var e :| Has(p, a.symbol, e) && Mentions(e, n);
      var fn := FilesOf(dump, lists, files, fs, a.symbol);
      EnclosingRows(files, a.symbol, fn, files[a.symbol].edges, a, n);
      assert MentionedIn(files[a.symbol].edges, n);
    }
  }

  // ---------------------------------------------------------------------------------------
  // From the running program to the facts
  // ---------------------------------------------------------------------------------------

  /** After `k` links, the walk is at page number `k`, or at the end. */
  predicate WalkedTo(mem: map<Pages.Addr, Pages.Page>, first: Pages.Addr, pages: seq<Pages.Addr>, k: nat) {
    && Follow(mem, first, k) == Pages.NextOf(pages, k)
    && (Pages.NextOf(pages, k) == Pages.NULL <==> k >= |pages|)
  }

  predicate WalkedAll(mem: map<Pages.Addr, Pages.Page>, first: Pages.Addr, pages: seq<Pages.Addr>) {
    forall k {:trigger WalkedTo(mem, first, pages, k)} | 0 <= k <= |pages| :: WalkedTo(mem, first, pages, k)
  }

  lemma ListIsWalked(mem: map<Pages.Addr, Pages.Page>, first: Pages.Addr, pages: seq<Pages.Addr>)
    requires IsList(mem, first, pages)
    ensures WalkedAll(mem, first, pages)
  {
    hide Pages.NextOf;
    forall k | 0 <= k <= |pages| ensures WalkedTo(mem, first, pages, k) {
      FollowList(mem, pages, 0, k);
      NextOfAt(pages, 0);
      NextOfAt(pages, k);
      assert k < |pages| ==> pages[k] in pages;
    }
  }

  /** There is one list of pages from a given start. */
  lemma ListIsUnique(mem: map<Pages.Addr, Pages.Page>, first: Pages.Addr, a: seq<Pages.Addr>, b: seq<Pages.Addr>)
    requires WalkedAll(mem, first, a) && WalkedAll(mem, first, b)
    ensures a == b
  {
    var n := Pages.Min(|a|, |b|);
    assert WalkedTo(mem, first, a, n) && WalkedTo(mem, first, b, n);
    forall k | 0 <= k < n ensures a[k] == b[k] {
      assert WalkedTo(mem, first, a, k) && WalkedTo(mem, first, b, k);
    }
  }

  /** The core dump was taken in this state of the list that starts at `page`. */
  ghost predicate Dumped(dump: Dump, page: nat, s: Pages.State) {
    && page in dump.heads && dump.heads[page] == s.dst
    && forall p | p in s.mem :: p in dump.mem && dump.mem[p] == s.mem[p]
  }

  lemma {:induction false} SameEntries(
      mem: map<Pages.Addr, Pages.Page>, mem': map<Pages.Addr, Pages.Page>, pages: seq<Pages.Addr>, k: nat)
    requires forall p | p in pages :: p in mem && p in mem' && mem[p] == mem'[p] && |mem[p].pointers| == Pages.CAPACITY
    ensures EntriesOf(mem, pages, k) == EntriesOf(mem', pages, k)
    decreases |pages| - k
  {
    if k < |pages| {
      SameEntries(mem, mem', pages, k + 1);
    }
  }

  /** The symbol of a completed insertion is among the entries that are read from the dump. */
  lemma InsertedIsDumped(
      sym: Pages.Op -> Pages.Symbol, tr: seq<Pages.State>, ls: seq<Pages.Label>, i: nat, op: Pages.Op,
      dump: Dump, lists: map<nat, seq<Pages.Addr>>, page: nat)
    requires IsRun(sym, tr, ls) && i < |tr| && op in tr[i].pcs && tr[i].pcs[op].Done?
    requires DumpOk(dump, lists) && Dumped(dump, page, tr[i])
    ensures page in lists && IsList(dump.mem, dump.heads[page], lists[page])
    ensures sym(op) in EntriesOf(dump.mem, lists[page], 0)
  {
    var s := tr[i];
    assert ListOk(dump, lists, page);
    var owners := WalkReadsReservations(sym, tr, ls, i);
    assert IsList(dump.mem, s.dst, s.published);
    ListIsWalked(dump.mem, s.dst, s.published);
    ListIsWalked(dump.mem, s.dst, lists[page]);
    ListIsUnique(dump.mem, s.dst, s.published, lists[page]);
    SameEntries(s.mem, dump.mem, s.published, 0);
    assert op in Reserved(s);
    var k :| 0 <= k < |owners| && owners[k] == op;
    assert EntriesOf(s.mem, s.published, 0)[k] == Entry(sym, s, op);
  }

  /** The facts for function `f` come from printing `fs`, and it uses the list that starts at `page`. */
  ghost predicate Records(
    dump: Dump, lists: map<nat, seq<Pages.Addr>>, files: map<nat, Files>, fs: seq<Function>, f: nat,
    output: Node, page: nat)
    requires DumpOk(dump, lists)
  {
    && Printed(dump, lists, files, fs)
    && f in files && !IsGlobals(files[f])
    && LastOf(fs, f).Some? && DlsymPagePointer(output, Symbol(page)) in LastOf(fs, f).value.edges
  }

  /** Whatever `dlsym` has returned to function `f`, and is recorded, is assigned to its result in the facts. */
  lemma DlsymResultIsAssigned(
      sym: Pages.Op -> Pages.Symbol, tr: seq<Pages.State>, ls: seq<Pages.Label>, i: nat, op: Pages.Op,
      dump: Dump, lists: map<nat, seq<Pages.Addr>>, files: map<nat, Files>, fs: seq<Function>, f: nat,
      output: Node, page: nat)
    requires IsRun(sym, tr, ls) && i < |tr| && op in tr[i].pcs && tr[i].pcs[op].Done?
    requires DumpOk(dump, lists) && Dumped(dump, page, tr[i]) && Records(dump, lists, files, fs, f, output, page)
    ensures Has(ProgramOf(files), f, Assign(output, Symbol(sym(op))))
  {
    InsertedIsDumped(sym, tr, ls, i, op, dump, lists, page);
    var symbols := EntriesOf(dump.mem, lists[page], 0);
    var k :| 0 <= k < |symbols| && symbols[k] == sym(op);
    AssignsHave(output, symbols, k);
    var fn := FilesOf(dump, lists, files, fs, f);
    var j :| 0 <= j < |fn.edges| && fn.edges[j] == DlsymPagePointer(output, Symbol(page));
    RowsHave(dump, lists, fn.edges, j);
    assert Assign(output, Symbol(sym(op))) in RowsOf(dump, lists, fn.edges[j]).value;
  }

  /** So if `f` is found to be reachable, the symbol is found to be referenced. */
  lemma DlsymResultIsReferenced(
      sym: Pages.Op -> Pages.Symbol, tr: seq<Pages.State>, ls: seq<Pages.Label>, i: nat, op: Pages.Op,
      dump: Dump, lists: map<nat, seq<Pages.Addr>>, files: map<nat, Files>, fs: seq<Function>, f: nat,
      output: Node, page: nat)
    requires IsRun(sym, tr, ls) && i < |tr| && op in tr[i].pcs && tr[i].pcs[op].Done?
    requires DumpOk(dump, lists) && Dumped(dump, page, tr[i]) && Records(dump, lists, files, fs, f, output, page)
    requires output.Local? && Derives(ProgramOf(files), false, Reachable(Symbol(f)))
    ensures Derives(ProgramOf(files), false, Referenced(Symbol(sym(op))))
  {
    var p, x := ProgramOf(files), Symbol(sym(op));
    DlsymResultIsAssigned(sym, tr, ls, i, op, dump, lists, files, fs, f, output, page);
    var e := Assign(output, x);
    assert InCode(p, e) && Mentions(e, output) && Mentions(e, x);
    assert EnclosingFunctionForLocal(p, Symbol(f), output);
    assert EitherIn(p, Symbol(f), x, output) && FromValue(p, output, x) && IsSymbol(p, x);
    assert Derives(p, false, ReferencedFrom(x, Symbol(f)));
  }
}
