/**
 Why the rules derive what they derive: everything that is found to be reachable or referenced has a reason in
 the edges of the program, step by step from the roots. So a function for which there are no such steps is found
 to be unreachable, which is the answer that a user of the analysis acts on.
 */
module Justifications {
  import opened EdgeEncoding
  import opened SimpleRules

  // ---------------------------------------------------------------------------------------
  // Reasons in the edges
  // ---------------------------------------------------------------------------------------

  /** Symbol `x` is next to `n` in an edge, where the analysis takes the address of a symbol. */
  predicate NextTo(e: Edge, x: Node, n: Node) {
    match e
    case Assign(a, b) => (a == x && b == n) || (a == n && b == x)
    case Load(a, b) => (a == x && b == n) || (a == n && b == x)
    case Store(a, b) => (a == x && b == n) || (a == n && b == x)
    case ArgumentDefinition(a, b, _) => a == x && b == n
    case ArgumentSupply(a, b, _) => a == n && b == x
    case Return(a, b) => a == n && b == x
    case Call(_, _) => false
    case DlsymPagePointer(_, _) => false
  }

  ghost predicate InitialisedWith(p: Program, addr: Node, x: Node) {
    exists path :: Initialises(p, addr, path, x)
  }

  ghost predicate Beside(p: Program, x: Node, n: Node) {
    || (exists e :: InCode(p, e) && NextTo(e, x, n))
    || InitialisedWith(p, x, n) || InitialisedWith(p, n, x)
  }

  /** Function `f` uses the address of symbol `x`: an edge has it next to a local of `f`, or `f` returns it. */
  ghost predicate Uses(p: Program, completed: bool, f: Node, x: Node) {
    && IsSymbol(p, x)
    && ((exists n :: EnclosingFunctionForLocal(p, f, n) && Beside(p, x, n)) || (completed && InCode(p, Return(f, x))))
  }

  /** `x` is stored at `addr`, by code or by an initialiser. */
  ghost predicate StoredAt(p: Program, addr: Node, x: Node) {
    InCode(p, Store(addr, x)) || InitialisedWith(p, addr, x)
  }

  /** Function `f` has a call. */
  ghost predicate CallsFrom(p: Program, f: Node, cs: Node, callee: Node) {
    InCode(p, Call(cs, callee)) && EnclosingFunctionForLocal(p, f, cs)
  }

  /** The call may lead to any function whose address is used. */
  predicate IsIndirect(p: Program, callee: Node) {
    || callee.Local?
    || (callee.symbol in p.names && p.names[callee.symbol] == "pthread_create")
    || (callee.symbol in p.names && p.names[callee.symbol]
          == "_ZNSt6thread15_M_start_threadESt10unique_ptrINS_6_StateESt14default_deleteIS1_EEPFvvE")
  }

  // ---------------------------------------------------------------------------------------
  // Lists of reasons
  // ---------------------------------------------------------------------------------------

  datatype Item = Reached(f: Node) | Used(x: Node)

  ghost predicate CalledFrom(p: Program, before: seq<Item>, f: Node, g: Node) {
    exists cs, callee ::
      CallsFrom(p, f, cs, callee) && ((callee == g && g.Symbol?) || (IsIndirect(p, callee) && Used(g) in before))
  }

  /** An item has a reason in the edges and the items before it. */
  ghost predicate IsJustified(p: Program, completed: bool, before: seq<Item>, item: Item) {
    match item
    case Reached(g) =>
      || (g.Symbol? && g.symbol in p.roots)
      || exists f :: Reached(f) in before && CalledFrom(p, before, f, g)
    case Used(x) =>
      || (exists f :: Reached(f) in before && Uses(p, completed, f, x))
      || (exists addr :: Used(addr) in before && StoredAt(p, addr, x))
  }

  ghost predicate AllJustified(p: Program, completed: bool, items: seq<Item>) {
    forall i {:trigger IsJustified(p, completed, items[..i], items[i])} | 0 <= i < |items| ::
      IsJustified(p, completed, items[..i], items[i])
  }

  ghost predicate HasReason(p: Program, completed: bool, item: Item) {
    exists items :: AllJustified(p, completed, items) && item in items
  }

  lemma JustifiedByMore(p: Program, completed: bool, before: seq<Item>, more: seq<Item>, item: Item)
    requires IsJustified(p, completed, before, item) && forall it | it in before :: it in more
    ensures IsJustified(p, completed, more, item)
  {
    match item
    case Reached(g) =>
      if !(g.Symbol? && g.symbol in p.roots) {
        var f :| Reached(f) in before && CalledFrom(p, before, f, g);
        assert CalledFrom(p, more, f, g);
      }
    case Used(x) =>
  }

  lemma JoinReasons(p: Program, completed: bool, a: seq<Item>, b: seq<Item>)
    requires AllJustified(p, completed, a) && AllJustified(p, completed, b)
    ensures AllJustified(p, completed, a + b)
  {
    hide IsJustified;
    var c := a + b;
    forall i | 0 <= i < |c| ensures IsJustified(p, completed, c[..i], c[i]) {
      if i < |a| {
        assert c[..i] == a[..i];
        assert IsJustified(p, completed, a[..i], a[i]);
      } else {
        assert c[..i] == a + b[..i - |a|];
        assert IsJustified(p, completed, b[..i - |a|], b[i - |a|]);
        JustifiedByMore(p, completed, b[..i - |a|], c[..i], c[i]);
      }
    }
  }

  /** Two items with reasons are in one list. */
  lemma BothInOne(p: Program, completed: bool, a: Item, b: Item) returns (items: seq<Item>)
    requires HasReason(p, completed, a) && HasReason(p, completed, b)
    ensures AllJustified(p, completed, items) && a in items && b in items
  {
    var x :| AllJustified(p, completed, x) && a in x;
    var y :| AllJustified(p, completed, y) && b in y;
    JoinReasons(p, completed, x, y);
    items := x + y;
  }

  lemma OneMoreReason(p: Program, completed: bool, items: seq<Item>, item: Item)
    requires AllJustified(p, completed, items) && IsJustified(p, completed, items, item)
    ensures HasReason(p, completed, item)
  {
    hide IsJustified;
    var more := items + [item];
    forall i | 0 <= i < |more| ensures IsJustified(p, completed, more[..i], more[i]) {
      if i < |items| {
        assert more[..i] == items[..i];
        assert IsJustified(p, completed, items[..i], items[i]);
      } else {
        assert more[..i] == items;
      }
    }
    assert item in more;
  }

  lemma RootHasReason(p: Program, completed: bool, f: Node)
    requires f.Symbol? && f.symbol in p.roots
    ensures HasReason(p, completed, Reached(f))
  {
    OneMoreReason(p, completed, [], Reached(f));
  }

  lemma CalleeHasReason(p: Program, completed: bool, f: Node, cs: Node, callee: Node, g: Node)
    requires HasReason(p, completed, Reached(f)) && CallsFrom(p, f, cs, callee)
    requires (callee == g && g.Symbol?) || (IsIndirect(p, callee) && HasReason(p, completed, Used(g)))
    ensures HasReason(p, completed, Reached(g))
  {
    var items;
    if callee == g && g.Symbol? {
      items := BothInOne(p, completed, Reached(f), Reached(f));
    } else {
      items := BothInOne(p, completed, Reached(f), Used(g));
    }
    assert CalledFrom(p, items, f, g);
    OneMoreReason(p, completed, items, Reached(g));
  }

  lemma UseHasReason(p: Program, completed: bool, f: Node, x: Node)
    requires HasReason(p, completed, Reached(f)) && Uses(p, completed, f, x)
    ensures HasReason(p, completed, Used(x))
  {
    var items :| AllJustified(p, completed, items) && Reached(f) in items;
    OneMoreReason(p, completed, items, Used(x));
  }

  lemma StoreHasReason(p: Program, completed: bool, addr: Node, x: Node)
    requires HasReason(p, completed, Used(addr)) && StoredAt(p, addr, x)
    ensures HasReason(p, completed, Used(x))
  {
    var items :| AllJustified(p, completed, items) && Used(addr) in items;
    OneMoreReason(p, completed, items, Used(x));
  }

  // ---------------------------------------------------------------------------------------
  // What is derived has a reason
  // ---------------------------------------------------------------------------------------

  ghost predicate AssignPath(p: Program, x: Node, path: seq<Node>, z: Node) {
    && path != []
    && Assign(x, path[0]) in p.globals
    && (forall i | 0 < i < |path| :: Assign(path[i - 1], path[i]) in p.globals)
    && path[|path| - 1] == z
  }

  /** A derived call: it may lead to the callee for one of two reasons. */
  ghost predicate CallHasReason(p: Program, completed: bool, cs: Node, g: Node) {
    exists callee ::
      && InCode(p, Call(cs, callee))
      && ((callee == g && g.Symbol?) || (IsIndirect(p, callee) && HasReason(p, completed, Used(g))))
  }

  ghost predicate FactHasReason(p: Program, completed: bool, fact: Fact) {
    match fact
    case GlobalAssign(x, z) => exists path :: AssignPath(p, x, path, z)
    case GlobalStore(x, z) => InitialisedWith(p, x, z)
    case Stored(x, y) => StoredAt(p, x, y)
    case ReferencedFrom(x, f) => Uses(p, completed, f, x)
    case Referenced(x) => HasReason(p, completed, Used(x))
    case CallGraph(cs, callee, _) => CallHasReason(p, completed, cs, callee)
    case Reachable(f) => HasReason(p, completed, Reached(f))
  }

  lemma AssignPathsJoin(p: Program, x: Node, a: seq<Node>, y: Node, b: seq<Node>, z: Node)
    requires AssignPath(p, x, a, y) && AssignPath(p, y, b, z)
    ensures AssignPath(p, x, a + b, z)
  {
    var c := a + b;
    forall i | 0 < i < |c| ensures Assign(c[i - 1], c[i]) in p.globals {
      assert i > |a| ==> c[i - 1] == b[i - 1 - |a|] && c[i] == b[i - |a|];
    }
  }

  lemma InitialiserGoesOn(p: Program, x: Node, a: seq<Node>, y: Node, b: seq<Node>, z: Node)
    requires Initialises(p, x, a, y) && AssignPath(p, y, b, z)
    ensures Initialises(p, x, a + b, z)
  {
    var c := a + b;
    forall i | 0 < i < |c| ensures Assign(c[i - 1], c[i]) in p.globals {
      assert i > |a| ==> c[i - 1] == b[i - 1 - |a|] && c[i] == b[i - |a|];
    }
  }

  /** One of the rules for stores and assignments of initialisers. */
  lemma InitialiserRules(p: Program, completed: bool, x: Node, y: Node, z: Node)
    requires FactHasReason(p, completed, GlobalAssign(y, z))
    ensures FactHasReason(p, completed, GlobalAssign(x, y)) ==> FactHasReason(p, completed, GlobalAssign(x, z))
    ensures FactHasReason(p, completed, GlobalStore(x, y)) ==> FactHasReason(p, completed, GlobalStore(x, z))
  {
    var b :| AssignPath(p, y, b, z);
    if FactHasReason(p, completed, GlobalAssign(x, y)) {
      var a :| AssignPath(p, x, a, y);
      AssignPathsJoin(p, x, a, y, b, z);
    }
    if FactHasReason(p, completed, GlobalStore(x, y)) {
      var a :| Initialises(p, x, a, y);
      InitialiserGoesOn(p, x, a, y, b, z);
    }
  }

  lemma OneEdgePath(p: Program, x: Node, z: Node)
    ensures Assign(x, z) in p.globals ==> AssignPath(p, x, [z], z)
    ensures Store(x, z) in p.globals ==> Initialises(p, x, [z], z)
  {
  }

  /** The clauses for a symbol next to a local all say the same. */
  lemma BesideLocal(p: Program, completed: bool, f: Node, x: Node, y: Node)
    requires IsSymbol(p, x) && EitherIn(p, f, x, y)
    requires ToValue(p, x, y) || FromValue(p, y, x) || StoredAt(p, x, y) || StoredAt(p, y, x)
    ensures Uses(p, completed, f, x)
  {
    assert EnclosingFunctionForLocal(p, f, y);
    if ToValue(p, x, y) {
      ToValueIsBeside(p, x, y);
    } else if FromValue(p, y, x) {
      FromValueIsBeside(p, x, y);
    } else if InCode(p, Store(x, y)) {
      assert NextTo(Store(x, y), x, y);
    } else if InCode(p, Store(y, x)) {
      assert NextTo(Store(y, x), x, y);
    }
    assert Beside(p, x, y);
  }

  lemma ToValueIsBeside(p: Program, x: Node, y: Node)
    requires ToValue(p, x, y)
    ensures Beside(p, x, y)
  {
    if InCode(p, Assign(x, y)) {
      assert NextTo(Assign(x, y), x, y);
    } else if InCode(p, Load(x, y)) {
      assert NextTo(Load(x, y), x, y);
    } else {
      var i :| InCode(p, ArgumentDefinition(x, y, i));
      assert NextTo(ArgumentDefinition(x, y, i), x, y);
    }
  }

  lemma FromValueIsBeside(p: Program, x: Node, y: Node)
    requires FromValue(p, y, x)
    ensures Beside(p, x, y)
  {
    if InCode(p, Assign(y, x)) {
      assert NextTo(Assign(y, x), x, y);
    } else if InCode(p, Load(y, x)) {
      assert NextTo(Load(y, x), x, y);
    } else if InCode(p, Return(y, x)) {
      assert NextTo(Return(y, x), x, y);
    } else {
      var i :| InCode(p, ArgumentSupply(y, x, i));
      assert NextTo(ArgumentSupply(y, x, i), x, y);
    }
  }

  /** A call edge of a derived call is of the function whose local its callsite is. */
  lemma CalledHasReason(p: Program, completed: bool, cs: Node, g: Node, caller: Node)
    requires CallHasReason(p, completed, cs, g) && EnclosingFunctionForLocal(p, caller, cs)
    requires HasReason(p, completed, Reached(caller))
    ensures HasReason(p, completed, Reached(g))
  {
    var callee :|
      && InCode(p, Call(cs, callee))
      && ((callee == g && g.Symbol?) || (IsIndirect(p, callee) && HasReason(p, completed, Used(g))));
    CalleeHasReason(p, completed, caller, cs, callee, g);
  }

  /** The clauses for one function, with reasons for the stores. */
  lemma UsedNextTo(p: Program, completed: bool, f: Node, x: Node)
    requires IsSymbol(p, x)
    requires
      || (exists y :: ToValue(p, x, y) && EitherIn(p, f, x, y))
      || (exists y :: StoredAt(p, x, y) && EitherIn(p, f, x, y))
      || (exists y :: FromValue(p, y, x) && EitherIn(p, f, x, y))
      || (exists y :: StoredAt(p, y, x) && EitherIn(p, f, x, y))
      || (completed && InCode(p, Return(f, x)))
    ensures Uses(p, completed, f, x)
  {
    hide ToValue, FromValue, EitherIn, IsSymbol, StoredAt;
    if exists y :: ToValue(p, x, y) && EitherIn(p, f, x, y) {
      var y :| ToValue(p, x, y) && EitherIn(p, f, x, y);
      BesideLocal(p, completed, f, x, y);
    } else if exists y :: StoredAt(p, x, y) && EitherIn(p, f, x, y) {
      var y :| StoredAt(p, x, y) && EitherIn(p, f, x, y);
      BesideLocal(p, completed, f, x, y);
    } else if exists y :: FromValue(p, y, x) && EitherIn(p, f, x, y) {
      var y :| FromValue(p, y, x) && EitherIn(p, f, x, y);
      BesideLocal(p, completed, f, x, y);
    } else if exists y :: StoredAt(p, y, x) && EitherIn(p, f, x, y) {
      var y :| StoredAt(p, y, x) && EitherIn(p, f, x, y);
      BesideLocal(p, completed, f, x, y);
    }
  }

  // ---------------------------------------------------------------------------------------
  // Rule by rule
  // ---------------------------------------------------------------------------------------

  lemma InputRules(p: Program, completed: bool, x: Node, z: Node)
    ensures Assign(x, z) in p.globals ==> FactHasReason(p, completed, GlobalAssign(x, z))
    ensures Store(x, z) in p.globals ==> FactHasReason(p, completed, GlobalStore(x, z))
    ensures InCode(p, Store(x, z)) ==> FactHasReason(p, completed, Stored(x, z))
    ensures FactHasReason(p, completed, GlobalStore(x, z)) ==> FactHasReason(p, completed, Stored(x, z))
  {
    OneEdgePath(p, x, z);
  }

  lemma ReferencedFromRule(p: Program, completed: bool, x: Node, f: Node)
    requires IsSymbol(p, x)
    requires
      || (exists y :: ToValue(p, x, y) && EitherIn(p, f, x, y))
      || (exists y :: FactHasReason(p, completed, Stored(x, y)) && EitherIn(p, f, x, y))
      || (exists y :: FromValue(p, y, x) && EitherIn(p, f, x, y))
      || (exists y :: FactHasReason(p, completed, Stored(y, x)) && EitherIn(p, f, x, y))
      || (completed && InCode(p, Return(f, x)))
    ensures FactHasReason(p, completed, ReferencedFrom(x, f))
  {
    hide ToValue, FromValue, EitherIn, IsSymbol, StoredAt, InCode;
    UsedNextTo(p, completed, f, x);
  }

  lemma ReferencedRules(p: Program, completed: bool, x: Node, y: Node)
    ensures FactHasReason(p, completed, Stored(y, x)) && FactHasReason(p, completed, Referenced(y)) ==>
      FactHasReason(p, completed, Referenced(x))
    ensures FactHasReason(p, completed, ReferencedFrom(x, y)) && FactHasReason(p, completed, Reachable(y)) ==>
      FactHasReason(p, completed, Referenced(x))
  {
    hide HasReason, StoredAt, Uses;
    if FactHasReason(p, completed, Stored(y, x)) && FactHasReason(p, completed, Referenced(y)) {
      StoreHasReason(p, completed, y, x);
    }
    if FactHasReason(p, completed, ReferencedFrom(x, y)) && FactHasReason(p, completed, Reachable(y)) {
      UseHasReason(p, completed, y, x);
    }
  }

  lemma CallRules(p: Program, completed: bool, cs: Node, c: Node, g: Node, kind: Kind)
    requires InCode(p, Call(cs, c))
    ensures c == g && IsSymbol(p, g) ==> FactHasReason(p, completed, CallGraph(cs, g, kind))
    ensures (IsLocal(p, c) || (IsSymbol(p, c) && StartsThreads(p, c))) && FactHasReason(p, completed, Referenced(g)) ==>
      FactHasReason(p, completed, CallGraph(cs, g, kind))
  {
    hide HasReason;
    assert IsLocal(p, c) ==> IsIndirect(p, c);
  }

  lemma RootRule(p: Program, completed: bool, f: Node)
    requires f.Symbol? && f.symbol in p.roots
    ensures FactHasReason(p, completed, Reachable(f))
  {
    RootHasReason(p, completed, f);
  }

  lemma CalleeRule(p: Program, completed: bool, cs: Node, f: Node, kind: Kind, caller: Node)
    requires FactHasReason(p, completed, CallGraph(cs, f, kind)) && EnclosingFunctionForLocal(p, caller, cs)
    requires FactHasReason(p, completed, Reachable(caller))
    ensures FactHasReason(p, completed, Reachable(f))
  {
    hide HasReason, EnclosingFunctionForLocal, CallHasReason;
    CalledHasReason(p, completed, cs, f, caller);
  }

  /** Whatever the rules derive has a reason. */
  least lemma DerivedHasReason(p: Program, completed: bool, fact: Fact)
    requires Derives(p, completed, fact)
    ensures FactHasReason(p, completed, fact)
  {
    hide FactHasReason, EitherIn, EnclosingFunctionForLocal, ToValue, FromValue;
    hide InCode, IsLocal, IsSymbol, StartsThreads;
    forall sub: Fact | Derives#[_k - 1](p, completed, sub) ensures FactHasReason(p, completed, sub) {
      DerivedHasReason(p, completed, sub);
    }
    match fact
    case GlobalAssign(x, z) =>
      InputRules(p, completed, x, z);
      if Assign(x, z) !in p.globals {
        var y :|
          Derives#[_k - 1](p, completed, GlobalAssign(x, y)) && Derives#[_k - 1](p, completed, GlobalAssign(y, z));
        InitialiserRules(p, completed, x, y, z);
      }
    case GlobalStore(x, z) =>
      InputRules(p, completed, x, z);
      if Store(x, z) !in p.globals {
        var y :|
          Derives#[_k - 1](p, completed, GlobalStore(x, y)) && Derives#[_k - 1](p, completed, GlobalAssign(y, z));
        InitialiserRules(p, completed, x, y, z);
      }
    case Stored(x, y) =>
      InputRules(p, completed, x, y);
    case ReferencedFrom(x, f) =>
      ReferencedFromRule(p, completed, x, f);
    case Referenced(x) =>
      forall y {
        ReferencedRules(p, completed, x, y);
      }
    case CallGraph(cs, g, kind) =>
      forall c | InCode(p, Call(cs, c)) {
        CallRules(p, completed, cs, c, g, kind);
      }
    case Reachable(f) =>
      if f.Symbol? && f.symbol in p.roots {
        RootRule(p, completed, f);
      } else {
        var cs, kind, caller :|
          && Derives#[_k - 1](p, completed, CallGraph(cs, f, kind)) && EnclosingFunctionForLocal(p, caller, cs)
          && Derives#[_k - 1](p, completed, Reachable(caller));
        CalleeRule(p, completed, cs, f, kind, caller);
      }
  }

  // ---------------------------------------------------------------------------------------
  // What has a reason is derived
  // ---------------------------------------------------------------------------------------

  ghost predicate ItemDerived(p: Program, completed: bool, item: Item) {
    match item
    case Reached(f) => Derives(p, completed, Reachable(f))
    case Used(x) => Derives(p, completed, Referenced(x))
  }

  lemma {:induction false} PathIsDerived(p: Program, completed: bool, addr: Node, path: seq<Node>, x: Node)
    requires Initialises(p, addr, path, x)
    ensures Derives(p, completed, GlobalStore(addr, x))
    decreases |path|
  {
    if |path| > 1 {
      var init, y := path[..|path| - 1], path[|path| - 2];
      PathIsDerived(p, completed, addr, init, y);
      assert Derives(p, completed, GlobalAssign(y, x));
    }
  }

  lemma {:induction false} AssignPathIsDerived(p: Program, completed: bool, x: Node, path: seq<Node>, z: Node)
    requires AssignPath(p, x, path, z)
    ensures Derives(p, completed, GlobalAssign(x, z))
    decreases |path|
  {
    if |path| > 1 {
      var init, y := path[..|path| - 1], path[|path| - 2];
      AssignPathIsDerived(p, completed, x, init, y);
      assert Derives(p, completed, GlobalAssign(y, z));
    }
  }

  /** The relations of the initialisers are closed under their assignments, and hold nothing else. */
  lemma InitialisersIff(p: Program, completed: bool, x: Node, z: Node)
    ensures Derives(p, completed, GlobalAssign(x, z)) <==> exists path :: AssignPath(p, x, path, z)
    ensures Derives(p, completed, GlobalStore(x, z)) <==> exists path :: Initialises(p, x, path, z)
  {
    if Derives(p, completed, GlobalAssign(x, z)) {
      DerivedHasReason(p, completed, GlobalAssign(x, z));
    } else if exists path :: AssignPath(p, x, path, z) {
      var path :| AssignPath(p, x, path, z);
      AssignPathIsDerived(p, completed, x, path, z);
    }
    if Derives(p, completed, GlobalStore(x, z)) {
      DerivedHasReason(p, completed, GlobalStore(x, z));
    } else if exists path :: Initialises(p, x, path, z) {
      var path :| Initialises(p, x, path, z);
      PathIsDerived(p, completed, x, path, z);
    }
  }

  lemma StoreIsDerived(p: Program, completed: bool, addr: Node, x: Node)
    requires StoredAt(p, addr, x)
    ensures Derives(p, completed, Stored(addr, x))
  {
    if !InCode(p, Store(addr, x)) {
      var path :| Initialises(p, addr, path, x);
      PathIsDerived(p, completed, addr, path, x);
    }
  }

  lemma UseIsDerived(p: Program, completed: bool, f: Node, x: Node)
    requires Uses(p, completed, f, x)
    ensures Derives(p, completed, ReferencedFrom(x, f))
  {
    hide IsSymbol;
    if !(completed && InCode(p, Return(f, x))) {
      var n :| EnclosingFunctionForLocal(p, f, n) && Beside(p, x, n);
      assert EitherIn(p, f, x, n) && IsLocal(p, n);
      if exists e :: InCode(p, e) && NextTo(e, x, n) {
        var e :| InCode(p, e) && NextTo(e, x, n);
        NextToIsDerived(p, completed, f, x, n, e);
      } else if InitialisedWith(p, x, n) {
        StoreIsDerived(p, completed, x, n);
      } else {
        StoreIsDerived(p, completed, n, x);
      }
    }
  }

  lemma NextToIsDerived(p: Program, completed: bool, f: Node, x: Node, n: Node, e: Edge)
    requires InCode(p, e) && NextTo(e, x, n) && IsSymbol(p, x) && EitherIn(p, f, x, n) && IsLocal(p, n)
    ensures Derives(p, completed, ReferencedFrom(x, f))
  {
    hide IsSymbol, IsLocal, EitherIn;
    if e.Store? {
      StoreIsDerived(p, completed, Ends(e).0, Ends(e).1);
    } else {
      assert e == Assign(x, n) ==> ToValue(p, x, n);
      assert e == Load(x, n) ==> ToValue(p, x, n);
      assert e.ArgumentDefinition? && e == ArgumentDefinition(x, n, e.idx) ==> ToValue(p, x, n);
      assert e == Assign(n, x) ==> FromValue(p, n, x);
      assert e == Load(n, x) ==> FromValue(p, n, x);
      assert e == Return(n, x) ==> FromValue(p, n, x);
      assert e.ArgumentSupply? && e == ArgumentSupply(n, x, e.idx) ==> FromValue(p, n, x);
    }
  }

  lemma CallIsDerived(p: Program, completed: bool, before: seq<Item>, f: Node, g: Node)
    requires CalledFrom(p, before, f, g) && Derives(p, completed, Reachable(f))
    requires Used(g) in before ==> Derives(p, completed, Referenced(g))
    ensures Derives(p, completed, Reachable(g))
  {
    var cs, callee :|
      CallsFrom(p, f, cs, callee) && ((callee == g && g.Symbol?) || (IsIndirect(p, callee) && Used(g) in before));
    CalleeIsKnown(p, cs, callee);
    if callee == g && g.Symbol? {
      assert Derives(p, completed, CallGraph(cs, g, Direct));
    } else {
      assert Derives(p, completed, CallGraph(cs, g, Conservative));
    }
  }

  lemma CalleeIsKnown(p: Program, cs: Node, callee: Node)
    requires InCode(p, Call(cs, callee))
    ensures if callee.Symbol? then IsSymbol(p, callee) else IsLocal(p, callee)
  {
    var h :| Has(p, h, Call(cs, callee));
    assert Mentions(Call(cs, callee), callee);
    if callee.Local? {
      assert EnclosingFunctionForLocal(p, Symbol(h), callee);
    }
  }

  lemma {:induction false} JustifiedIsDerived(p: Program, completed: bool, items: seq<Item>, i: nat)
    requires AllJustified(p, completed, items) && i < |items|
    ensures ItemDerived(p, completed, items[i])
    decreases i
  {
    hide CalledFrom, Uses, StoredAt, Derives;
    var before := items[..i];
    assert IsJustified(p, completed, before, items[i]);
    forall it | it in before ensures ItemDerived(p, completed, it) {
      var j :| 0 <= j < i && before[j] == it;
      JustifiedIsDerived(p, completed, items, j);
    }
    ReasonIsDerived(p, completed, before, items[i]);
  }

  lemma ReasonIsDerived(p: Program, completed: bool, before: seq<Item>, item: Item)
    requires IsJustified(p, completed, before, item)
    requires forall it | it in before :: ItemDerived(p, completed, it)
    ensures ItemDerived(p, completed, item)
  {
    hide ItemDerived;
    match item
    case Reached(g) => ReachedIsDerived(p, completed, before, g);
    case Used(x) => UsedIsDerived(p, completed, before, x);
  }

  lemma ReachedIsDerived(p: Program, completed: bool, before: seq<Item>, g: Node)
    requires IsJustified(p, completed, before, Reached(g))
    requires forall it | it in before :: ItemDerived(p, completed, it)
    ensures ItemDerived(p, completed, Reached(g))
  {
    hide CalledFrom;
    if !(g.Symbol? && g.symbol in p.roots) {
      var f :| Reached(f) in before && CalledFrom(p, before, f, g);
      assert ItemDerived(p, completed, Reached(f));
      assert Used(g) in before ==> ItemDerived(p, completed, Used(g));
      CallIsDerived(p, completed, before, f, g);
    }
  }

  lemma UsedIsReferenced(p: Program, completed: bool, f: Node, x: Node)
    requires Uses(p, completed, f, x) && Derives(p, completed, Reachable(f))
    ensures Derives(p, completed, Referenced(x))
  {
    hide Uses;
    UseIsDerived(p, completed, f, x);
  }

  lemma StoredIsReferenced(p: Program, completed: bool, addr: Node, x: Node)
    requires StoredAt(p, addr, x) && Derives(p, completed, Referenced(addr))
    ensures Derives(p, completed, Referenced(x))
  {
    hide StoredAt;
    StoreIsDerived(p, completed, addr, x);
  }

  lemma UsedIsDerived(p: Program, completed: bool, before: seq<Item>, x: Node)
    requires IsJustified(p, completed, before, Used(x))
    requires forall it | it in before :: ItemDerived(p, completed, it)
    ensures ItemDerived(p, completed, Used(x))
  {
    hide Uses, StoredAt, Derives;
    if exists f :: Reached(f) in before && Uses(p, completed, f, x) {
      var f :| Reached(f) in before && Uses(p, completed, f, x);
      assert ItemDerived(p, completed, Reached(f));
      UsedIsReferenced(p, completed, f, x);
    } else {
      var addr :| Used(addr) in before && StoredAt(p, addr, x);
      assert ItemDerived(p, completed, Used(addr));
      StoredIsReferenced(p, completed, addr, x);
    }
  }

  /** A function is found to be reachable, and a symbol to be referenced, exactly when there is a list of reasons. */
  lemma DerivedIff(p: Program, completed: bool, n: Node)
    ensures Derives(p, completed, Reachable(n)) <==> HasReason(p, completed, Reached(n))
    ensures Derives(p, completed, Referenced(n)) <==> HasReason(p, completed, Used(n))
  {
    forall fact: Fact | Derives(p, completed, fact) ensures FactHasReason(p, completed, fact) {
      DerivedHasReason(p, completed, fact);
    }
    assert Derives(p, completed, Reachable(n)) ==> FactHasReason(p, completed, Reachable(n));
    assert Derives(p, completed, Referenced(n)) ==> FactHasReason(p, completed, Referenced(n));
    forall item | HasReason(p, completed, item) ensures ItemDerived(p, completed, item) {
      var items :| AllJustified(p, completed, items) && item in items;
      var i :| 0 <= i < |items| && items[i] == item;
      JustifiedIsDerived(p, completed, items, i);
    }
    assert HasReason(p, completed, Reached(n)) ==> ItemDerived(p, completed, Reached(n));
    assert HasReason(p, completed, Used(n)) ==> ItemDerived(p, completed, Used(n));
  }

  /** A call is in the call graph as a direct one if it names the callee, and otherwise for any function in use. */
  lemma CallGraphIff(p: Program, completed: bool, cs: Node, g: Node)
    ensures Derives(p, completed, CallGraph(cs, g, Direct)) <==> InCode(p, Call(cs, g)) && g.Symbol?
    ensures Derives(p, completed, CallGraph(cs, g, Conservative)) <==>
      HasReason(p, completed, Used(g)) && exists callee :: InCode(p, Call(cs, callee)) && IsIndirect(p, callee)
  {
    DerivedIff(p, completed, g);
    hide HasReason;
    forall callee | InCode(p, Call(cs, callee)) {
      CalleeIsKnown(p, cs, callee);
    }
  }

  // ---------------------------------------------------------------------------------------
  // Chains of calls
  // ---------------------------------------------------------------------------------------

  /** Some edge of the program or of an initialiser mentions the node. */
  ghost predicate IsMentioned(p: Program, n: Node) {
    exists e :: (InCode(p, e) || e in p.globals) && Mentions(e, n)
  }

  /** Function `f` has a call of `g`, or a call through a pointer or of a thread start while an edge mentions `g`. */
  ghost predicate MayCall(p: Program, f: Node, g: Node) {
    exists cs, callee ::
      CallsFrom(p, f, cs, callee) && ((callee == g && g.Symbol?) || (IsIndirect(p, callee) && IsMentioned(p, g)))
  }

  ghost predicate IsChain(p: Program, chain: seq<Node>) {
    && chain != []
    && chain[0].Symbol? && chain[0].symbol in p.roots
    && forall i {:trigger MayCall(p, chain[i - 1], chain[i])} | 0 < i < |chain| :: MayCall(p, chain[i - 1], chain[i])
  }

  lemma UsedIsMentioned(p: Program, completed: bool, before: seq<Item>, x: Node)
    requires IsJustified(p, completed, before, Used(x))
    ensures IsMentioned(p, x)
  {
    hide IsSymbol, EnclosingFunctionForLocal;
    if exists f :: Reached(f) in before && Uses(p, completed, f, x) {
      var f :| Reached(f) in before && Uses(p, completed, f, x);
      if completed && InCode(p, Return(f, x)) {
        assert Mentions(Return(f, x), x);
      } else {
        var n :| EnclosingFunctionForLocal(p, f, n) && Beside(p, x, n);
        BesideIsMentioned(p, x, n);
      }
    } else {
      var addr :| Used(addr) in before && StoredAt(p, addr, x);
      if InCode(p, Store(addr, x)) {
        assert Mentions(Store(addr, x), x);
      } else {
        InitialisedIsMentioned(p, addr, x);
      }
    }
  }

  lemma BesideIsMentioned(p: Program, x: Node, n: Node)
    requires Beside(p, x, n)
    ensures IsMentioned(p, x)
  {
    if exists e :: InCode(p, e) && NextTo(e, x, n) {
      var e :| InCode(p, e) && NextTo(e, x, n);
      assert Mentions(e, x);
    } else if InitialisedWith(p, x, n) {
      InitialisedIsMentioned(p, x, n);
    } else {
      InitialisedIsMentioned(p, n, x);
    }
  }

  lemma InitialisedIsMentioned(p: Program, addr: Node, x: Node)
    requires InitialisedWith(p, addr, x)
    ensures IsMentioned(p, addr) && IsMentioned(p, x)
  {
    var path :| Initialises(p, addr, path, x);
    assert Mentions(Store(addr, path[0]), addr) && Mentions(Store(addr, path[0]), path[0]);
    if |path| > 1 {
      var e := Assign(path[|path| - 2], path[|path| - 1]);
      assert e in p.globals && Mentions(e, x);
    }
  }

  lemma {:induction false} ReachedHasChain(p: Program, completed: bool, items: seq<Item>, i: nat)
      returns (chain: seq<Node>)
    requires AllJustified(p, completed, items) && i < |items| && items[i].Reached?
    ensures IsChain(p, chain) && chain[|chain| - 1] == items[i].f
    decreases i
  {
    hide IsMentioned, CallsFrom, IsIndirect;
    var before, g := items[..i], items[i].f;
    assert IsJustified(p, completed, before, items[i]);
    if g.Symbol? && g.symbol in p.roots {
      chain := [g];
    } else {
      var f :| Reached(f) in before && CalledFrom(p, before, f, g);
      var j :| 0 <= j < i && before[j] == Reached(f);
      var start := ReachedHasChain(p, completed, items, j);
      if Used(g) in before {
        var m :| 0 <= m < i && before[m] == Used(g);
        assert IsJustified(p, completed, items[..m], items[m]);
        UsedIsMentioned(p, completed, items[..m], g);
      }
      assert MayCall(p, f, g);
      chain := start + [g];
      ChainGoesOn(p, start, g);
    }
  }

  lemma ChainGoesOn(p: Program, start: seq<Node>, g: Node)
    requires IsChain(p, start) && MayCall(p, start[|start| - 1], g)
    ensures IsChain(p, start + [g])
  {
    hide MayCall;
    var chain := start + [g];
    forall i | 0 < i < |chain| ensures MayCall(p, chain[i - 1], chain[i]) {
      assert i < |start| ==> MayCall(p, start[i - 1], start[i]);
    }
  }

  /** A function is found to be reachable only if a chain of possible calls leads to it from a root. */
  lemma ReachableHasChain(p: Program, completed: bool, f: Node) returns (chain: seq<Node>)
    requires Derives(p, completed, Reachable(f))
    ensures IsChain(p, chain) && chain[|chain| - 1] == f
  {
    DerivedIff(p, completed, f);
    var items :| AllJustified(p, completed, items) && Reached(f) in items;
    var i :| 0 <= i < |items| && items[i] == Reached(f);
    chain := ReachedHasChain(p, completed, items, i);
  }
}
