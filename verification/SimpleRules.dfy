/**
 The datalog rules of the simple reachability analysis, as a least fixed point over the facts
 that the metadata of a program gives.
 */
module SimpleRules {
  import opened EdgeEncoding

  /** In the facts, a symbol is the address of a function or a global. */
  datatype Edge =
    | Assign(to: Node, from: Node)
    | Load(into: Node, addr: Node)
    | Store(addr: Node, value: Node)
    | Call(callsite: Node, callee: Node)
    | Return(func: Node, value: Node)
    | ArgumentDefinition(value: Node, func: Node, idx: nat)
    | ArgumentSupply(callsite: Node, value: Node, idx: nat)
    | DlsymPagePointer(output: Node, page: Node)

  /**
   `code` has the edges recorded for each function, `globals` those of the pseudo-functions that
   stand for the initialisers of global variables, whose tables are kept apart.
   */
  datatype Program = Program(
    code: map<nat, set<Edge>>,
    globals: set<Edge>,
    names: map<nat, string>,
    roots: set<nat>
  )

  // ---------------------------------------------------------------------------------------
  // Input tables
  // ---------------------------------------------------------------------------------------

  predicate Has(p: Program, f: nat, e: Edge) {
    f in p.code && e in p.code[f]
  }

  ghost predicate InCode(p: Program, e: Edge) {
    exists f :: Has(p, f, e)
  }

  /** The two nodes of an edge; each is written to the node tables. */
  function Ends(e: Edge): (Node, Node) {
    match e
    case Assign(a, b) => (a, b)
    case Load(a, b) => (a, b)
    case Store(a, b) => (a, b)
    case Call(a, b) => (a, b)
    case Return(a, b) => (a, b)
    case ArgumentDefinition(a, b, _) => (a, b)
    case ArgumentSupply(a, b, _) => (a, b)
    case DlsymPagePointer(a, b) => (a, b)
  }

  predicate Mentions(e: Edge, n: Node) {
    n == Ends(e).0 || n == Ends(e).1
  }

  ghost predicate EnclosingFunctionForLocal(p: Program, f: Node, n: Node) {
    f.Symbol? && n.Local? && exists e :: Has(p, f.symbol, e) && Mentions(e, n)
  }

  ghost predicate IsLocal(p: Program, n: Node) {
    exists f :: EnclosingFunctionForLocal(p, f, n)
  }

  /** A symbol is listed when an edge mentions it or one of its locals. */
  ghost predicate IsSymbol(p: Program, n: Node) {
    n.Symbol? && exists f, e, m ::
      Has(p, f, e) && Mentions(e, m) && (m == n || (m.Local? && m.symbol == n.symbol))
  }

  const THREAD_START := "_ZNSt6thread15_M_start_threadESt10unique_ptrINS_6_StateESt14default_deleteIS1_EEPFvvE"

  predicate StartsThreads(p: Program, n: Node) {
    n.Symbol? && n.symbol in p.names && p.names[n.symbol] in {"pthread_create", THREAD_START}
  }

  /** The relations whose first column has type Value, stores apart. */
  ghost predicate ToValue(p: Program, x: Node, y: Node) {
    || InCode(p, Assign(x, y))
    || InCode(p, Load(x, y))
    || exists i :: InCode(p, ArgumentDefinition(x, y, i))
  }

  /** The relations whose second column has type Value, stores apart. */
  ghost predicate FromValue(p: Program, y: Node, x: Node) {
    || InCode(p, Assign(y, x))
    || InCode(p, Load(y, x))
    || InCode(p, Return(y, x))
    || exists i :: InCode(p, ArgumentSupply(y, x, i))
  }

  /** `path` leads from a store of an initialiser through its constants. */
  predicate Initialises(p: Program, addr: Node, path: seq<Node>, x: Node) {
    && path != []
    && Store(addr, path[0]) in p.globals
    && (forall i | 0 < i < |path| :: Assign(path[i - 1], path[i]) in p.globals)
    && path[|path| - 1] == x
  }

  ghost predicate EitherIn(p: Program, f: Node, x: Node, y: Node) {
    EnclosingFunctionForLocal(p, f, x) || EnclosingFunctionForLocal(p, f, y)
  }

  // ---------------------------------------------------------------------------------------
  // The rules
  // ---------------------------------------------------------------------------------------

  datatype Kind = Direct | Conservative

  datatype Fact =
    | GlobalAssign(to: Node, from: Node)
    | GlobalStore(to: Node, from: Node)
    | Stored(to: Node, from: Node)
    | ReferencedFrom(v: Node, f: Node)
    | Referenced(v: Node)
    | CallGraph(callsite: Node, callee: Node, kind: Kind)
    | Reachable(f: Node)

  /**
   What the rules derive. With `completed`, there is one clause more than the analysis has: a
   symbol that a function returns directly is referenced from that function.
   */
  least predicate Derives(p: Program, completed: bool, fact: Fact) {
    match fact
    case GlobalAssign(x, z) =>
      || Assign(x, z) in p.globals
      || exists y :: Derives(p, completed, GlobalAssign(x, y)) && Derives(p, completed, GlobalAssign(y, z))
    case GlobalStore(x, z) =>
      || Store(x, z) in p.globals
      || exists y :: Derives(p, completed, GlobalStore(x, y)) && Derives(p, completed, GlobalAssign(y, z))
    case Stored(x, y) =>
      InCode(p, Store(x, y)) || Derives(p, completed, GlobalStore(x, y))
    case ReferencedFrom(x, f) =>
      && IsSymbol(p, x)
      && (|| (exists y :: ToValue(p, x, y) && EitherIn(p, f, x, y))
          || (exists y :: Derives(p, completed, Stored(x, y)) && EitherIn(p, f, x, y))
          || (exists y :: FromValue(p, y, x) && EitherIn(p, f, x, y))
          || (exists dst :: Derives(p, completed, Stored(dst, x)) && EitherIn(p, f, x, dst) && IsLocal(p, dst))
          || (exists dst :: Derives(p, completed, Stored(dst, x)) && EitherIn(p, f, x, dst)
                            && IsSymbol(p, dst) && Derives(p, completed, Referenced(dst)))
          || (completed && InCode(p, Return(f, x))))
    case Referenced(x) =>
      || (exists dst :: Derives(p, completed, Stored(dst, x)) && Derives(p, completed, Referenced(dst)))
      || (exists f :: Derives(p, completed, ReferencedFrom(x, f)) && Derives(p, completed, Reachable(f)))
    case CallGraph(cs, callee, kind) =>
      || (kind.Direct? && InCode(p, Call(cs, callee)) && IsSymbol(p, callee))
      || (kind.Conservative? && Derives(p, completed, Referenced(callee))
          && exists c :: InCode(p, Call(cs, c)) && (IsLocal(p, c) || (IsSymbol(p, c) && StartsThreads(p, c))))
    case Reachable(f) =>
      || (f.Symbol? && f.symbol in p.roots)
      || exists cs, kind, caller ::
           Derives(p, completed, CallGraph(cs, f, kind)) && EnclosingFunctionForLocal(p, caller, cs)
           && Derives(p, completed, Reachable(caller))
  }

  // ---------------------------------------------------------------------------------------
  // The analysis against the completed rules
  // ---------------------------------------------------------------------------------------

  ghost predicate Completed(p: Program, fact: Fact) {
    Derives(p, true, fact)
  }

  least lemma ShippedWithinCompleted(p: Program, fact: Fact)
    requires Derives(p, false, fact)
    ensures Completed(p, fact)
  {
    forall sub: Fact | Derives#[_k - 1](p, false, sub) ensures Completed(p, sub) {
      ShippedWithinCompleted(p, sub);
    }
  }

  /** Every symbol that a reachable function returns directly is already known to be referenced. */
  ghost predicate ReturnedSymbolsReferenced(p: Program) {
    forall f, x | ReturnsSymbol(p, f, x) && Derives(p, false, Reachable(f)) :: Derives(p, false, Referenced(x))
  }

  ghost predicate ReturnsSymbol(p: Program, f: Node, x: Node) {
    InCode(p, Return(f, x)) && IsSymbol(p, x)
  }

  /** What a completed derivation says about the analysis's own rules. */
  ghost predicate AlsoShipped(p: Program, fact: Fact) {
    || Derives(p, false, fact)
    || (fact.ReferencedFrom? && ReturnsSymbol(p, fact.f, fact.v))
  }

  least lemma CompletedWithinShipped(p: Program, fact: Fact)
    requires ReturnedSymbolsReferenced(p)
    requires Derives(p, true, fact)
    ensures AlsoShipped(p, fact)
  {
    forall sub: Fact | Derives#[_k - 1](p, true, sub) ensures AlsoShipped(p, sub) {
      CompletedWithinShipped(p, sub);
    }
  }

  /**
   The analysis answers as the completed rules do, on every fact but the intermediate
   `ReferencedFrom`, exactly when returned symbols are referenced some other way.
   */
  lemma ShippedIsCompletedIff(p: Program)
    ensures ReturnedSymbolsReferenced(p) <==>
            forall fact: Fact | !fact.ReferencedFrom? :: Derives(p, false, fact) <==> Derives(p, true, fact)
  {
    forall fact: Fact | Derives(p, false, fact) ensures Derives(p, true, fact) {
      ShippedWithinCompleted(p, fact);
    }
    if ReturnedSymbolsReferenced(p) {
      forall fact: Fact | Derives(p, true, fact) ensures AlsoShipped(p, fact) {
        CompletedWithinShipped(p, fact);
      }
    }
    if forall fact: Fact | !fact.ReferencedFrom? :: Derives(p, false, fact) <==> Derives(p, true, fact) {
      forall f, x | ReturnsSymbol(p, f, x) && Derives(p, false, Reachable(f))
        ensures Derives(p, false, Referenced(x))
      {
        assert Derives(p, true, Reachable(f));
        assert Derives(p, true, ReferencedFrom(x, f));
        assert Derives(p, true, Referenced(x));
      }
    }
  }
}
