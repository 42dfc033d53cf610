/**
 What the points-to pass knows about the symbols of a program: a small lattice with "undefined" at the
 bottom. Every edge is an observation about some symbols, and two different observations are an error.
 */
module NodeStates {
  import opened EdgeEncoding
  import opened MachineWords
  import opened Sequences

  datatype NodeState = Undefined | GlobalData | Function(nargs: nat)

  datatype Observation = Observation(node: Node, state: NodeState)

  type States = map<Node, NodeState>

  /** The number of arguments is kept in 16 bits. */
  function FunctionOf(nargs: nat): NodeState {
    Function(nargs % TWO_16)
  }

  // ---------------------------------------------------------------------------------------
  // One observation
  // ---------------------------------------------------------------------------------------

  predicate Clash(states: States, o: Observation) {
    o.node in states && !states[o.node].Undefined? && !o.state.Undefined? && states[o.node] != o.state
  }

  function Observed(states: States, o: Observation): States {
    if o.node !in states || states[o.node].Undefined? then states[o.node := o.state] else states
  }

  /** All observations in turn; None is an error. */
  function ObserveAll(os: seq<Observation>): Option<States> {
    if os == [] then Some(map[])
    else
      var before, o := ObserveAll(os[..|os| - 1]), os[|os| - 1];
      if before.None? || Clash(before.value, o) then None else Some(Observed(before.value, o))
  }

  // ---------------------------------------------------------------------------------------
  // The order does not matter
  // ---------------------------------------------------------------------------------------

  /** No symbol has two different observations that are not undefined. */
  ghost predicate Consistent(os: set<Observation>) {
    forall a, b | a in os && b in os && a.node == b.node && !a.state.Undefined? && !b.state.Undefined? ::
      a.state == b.state
  }

  /** The least state above all observations of a node. */
  ghost predicate IsJoin(os: set<Observation>, node: Node, state: NodeState) {
    && (exists o :: o in os && o.node == node && o.state == state)
    && (state.Undefined? ==> forall o | o in os && o.node == node :: o.state.Undefined?)
  }

  ghost predicate IsJoinMap(os: set<Observation>, states: States) {
    && (forall o | o in os :: o.node in states)
    && (forall node | node in states :: IsJoin(os, node, states[node]))
  }

  function SetOf(os: seq<Observation>): set<Observation> {
    set o | o in os
  }

  lemma AddOne(os: set<Observation>, states: States, o: Observation)
    requires Consistent(os) && IsJoinMap(os, states)
    ensures Consistent(os + {o}) <==> !Clash(states, o)
    ensures !Clash(states, o) ==> IsJoinMap(os + {o}, Observed(states, o))
  {
    if o.node in states {
      assert IsJoin(os, o.node, states[o.node]);
      var known :| known in os && known.node == o.node && known.state == states[o.node];
      JoinStays(os, states, o, known);
    } else {
      JoinOfNew(os, states, o);
    }
  }

  lemma JoinStays(os: set<Observation>, states: States, o: Observation, known: Observation)
    requires Consistent(os) && IsJoinMap(os, states) && o.node in states
    requires known in os && known.node == o.node && known.state == states[o.node]
    ensures Consistent(os + {o}) <==> !Clash(states, o)
    ensures !Clash(states, o) ==> IsJoinMap(os + {o}, Observed(states, o))
  {
    var all := os + {o};
    assert known in all && o in all;
    if !Clash(states, o) {
      forall node | node in Observed(states, o) ensures IsJoin(all, node, Observed(states, o)[node]) {
        assert IsJoin(os, node, states[node]);
        JoinOfMore(os, all, node, states[node], o);
      }
    }
  }

  lemma JoinOfMore(os: set<Observation>, all: set<Observation>, node: Node, state: NodeState, o: Observation)
    requires IsJoin(os, node, state) && all == os + {o}
    ensures IsJoin(all, node, if node == o.node && state.Undefined? then o.state else state)
  {
    var witnessed :| witnessed in os && witnessed.node == node && witnessed.state == state;
    assert witnessed in all && o in all;
  }

  lemma JoinOfNew(os: set<Observation>, states: States, o: Observation)
    requires Consistent(os) && IsJoinMap(os, states) && o.node !in states
    ensures Consistent(os + {o}) && IsJoinMap(os + {o}, Observed(states, o))
  {
    var all := os + {o};
    assert o in all;
    forall node | node in Observed(states, o) ensures IsJoin(all, node, Observed(states, o)[node]) {
      if node != o.node {
        assert IsJoin(os, node, states[node]);
        JoinOfMore(os, all, node, states[node], o);
      }
    }
  }

  /** Observing succeeds exactly when the observations are consistent, and then yields their joins. */
  lemma {:induction false} ObserveAllIff(os: seq<Observation>)
    ensures ObserveAll(os).Some? <==> Consistent(SetOf(os))
    ensures ObserveAll(os).Some? ==> IsJoinMap(SetOf(os), ObserveAll(os).value)
  {
    if os != [] {
      var init, o := os[..|os| - 1], os[|os| - 1];
      ObserveAllIff(init);
      assert os == init + [o];
      assert SetOf(os) == SetOf(init) + {o};
      if ObserveAll(init).Some? {
        AddOne(SetOf(init), ObserveAll(init).value, o);
      } else {
        StaysInconsistent(SetOf(init), o);
      }
    }
  }

  lemma StaysInconsistent(os: set<Observation>, o: Observation)
    requires !Consistent(os)
    ensures !Consistent(os + {o})
  {
    var a, b :|
      a in os && b in os && a.node == b.node && !a.state.Undefined? && !b.state.Undefined? && a.state != b.state;
    assert a in os + {o} && b in os + {o};
  }

  lemma JoinIsUnique(os: set<Observation>, node: Node, a: NodeState, b: NodeState)
    requires Consistent(os) && IsJoin(os, node, a) && IsJoin(os, node, b)
    ensures a == b
  {
    var x :| x in os && x.node == node && x.state == a;
    var y :| y in os && y.node == node && y.state == b;
  }

  lemma JoinMapIsUnique(os: set<Observation>, a: States, b: States)
    requires Consistent(os) && IsJoinMap(os, a) && IsJoinMap(os, b)
    ensures a == b
  {
    forall node | node in a ensures node in b && a[node] == b[node] {
      JoinKnown(os, b, node, a[node]);
      JoinIsUnique(os, node, a[node], b[node]);
    }
    forall node | node in b ensures node in a {
      JoinKnown(os, a, node, b[node]);
    }
  }

  lemma JoinKnown(os: set<Observation>, states: States, node: Node, state: NodeState)
    requires IsJoinMap(os, states) && IsJoin(os, node, state)
    ensures node in states && IsJoin(os, node, states[node])
  {
    var o :| o in os && o.node == node && o.state == state;
  }

  /** Neither the order of the observations nor their repetition matters: not for success, nor for the states. */
  lemma OrderDoesNotMatter(a: seq<Observation>, b: seq<Observation>)
    requires SetOf(a) == SetOf(b)
    ensures ObserveAll(a) == ObserveAll(b)
  {
    ObserveAllIff(a);
    ObserveAllIff(b);
    if ObserveAll(a).Some? {
      JoinMapIsUnique(SetOf(a), ObserveAll(a).value, ObserveAll(b).value);
    }
  }

  // ---------------------------------------------------------------------------------------
  // The pass over all edges
  // ---------------------------------------------------------------------------------------

  /** The kinds of edges that say something, and the others. */
  datatype Edge =
    | Call(callsite: Node, callee: Node, nargs: nat)
    | Store(addr: Node, value: Node)
    | ArgumentDefinition(value: Node, func: Node, argNo: nat)
    | Other(to: Node, from: Node)

  datatype FunctionInfo = FunctionInfo(symbol: nat, edges: seq<Edge>)

  function Ends(e: Edge): (Node, Node) {
    match e
    case Call(callsite, callee, _) => (callsite, callee)
    case Store(addr, value) => (addr, value)
    case ArgumentDefinition(value, func, _) => (value, func)
    case Other(to, from) => (to, from)
  }

  /** Only the function's own locals occur in its edges. */
  predicate EdgeOk(e: Edge, symbol: nat) {
    var (a, b) := Ends(e);
    (a.Local? ==> a.symbol == symbol) && (b.Local? ==> b.symbol == symbol)
  }

  /** What the kind of an edge says. */
  function KindSays(e: Edge): seq<Observation> {
    match e
    case Call(_, callee, nargs) => if callee.Symbol? then [Observation(callee, FunctionOf(nargs))] else []
    case Store(addr, _) => if addr.Symbol? then [Observation(addr, GlobalData)] else []
    case _ => []
  }

  /** What the mention of another function's or variable's symbol says; `overrides` are known by name. */
  function EndSays(n: Node, symbol: nat, overrides: map<nat, nat>): seq<Observation> {
    if n.symbol == symbol then [] else [Observation(n, Undefined)] + OverrideSays(n, overrides)
  }

  function OverrideSays(n: Node, overrides: map<nat, nat>): seq<Observation> {
    if n.symbol in overrides then [Observation(n, FunctionOf(overrides[n.symbol]))] else []
  }

  function EdgeSays(e: Edge, symbol: nat, overrides: map<nat, nat>): seq<Observation> {
    KindSays(e) + EndSays(Ends(e).0, symbol, overrides) + EndSays(Ends(e).1, symbol, overrides)
  }

  function EdgesSay(es: seq<Edge>, symbol: nat, overrides: map<nat, nat>): seq<Observation> {
    if es == [] then [] else EdgesSay(es[..|es| - 1], symbol, overrides) + EdgeSays(es[|es| - 1], symbol, overrides)
  }

  /** An argument number says how many arguments there are; the sum is in 32 bits. */
  function ArgCount(argNo: nat): nat {
    Wrap(argNo + 1)
  }

  function MaxArgs(es: seq<Edge>): nat {
    if es == [] then 0
    else
      var before, e := MaxArgs(es[..|es| - 1]), es[|es| - 1];
      if e.ArgumentDefinition? && ArgCount(e.argNo) > before then ArgCount(e.argNo) else before
  }

  function FunctionSays(fi: FunctionInfo, overrides: map<nat, nat>): seq<Observation> {
    EdgesSay(fi.edges, fi.symbol, overrides) + [Observation(Symbol(fi.symbol), FunctionOf(MaxArgs(fi.edges)))]
  }

  function ProgramSays(fis: seq<FunctionInfo>, overrides: map<nat, nat>): seq<Observation> {
    if fis == [] then [] else ProgramSays(fis[..|fis| - 1], overrides) + FunctionSays(fis[|fis| - 1], overrides)
  }

  /** An error stays an error. */
  lemma {:induction false} NoneStays(os: seq<Observation>, more: seq<Observation>)
    requires ObserveAll(os).None?
    ensures ObserveAll(os + more).None?
  {
    if more == [] {
      assert os + more == os;
    } else {
      NoneStays(os, more[..|more| - 1]);
      assert (os + more)[..|os + more| - 1] == os + more[..|more| - 1];
    }
  }

  lemma ObserveOneMore(os: seq<Observation>, o: Observation)
    ensures ObserveAll(os + [o]) ==
      if ObserveAll(os).None? || Clash(ObserveAll(os).value, o) then None else Some(Observed(ObserveAll(os).value, o))
  {
    assert (os + [o])[..|os|] == os;
  }

  /** Repeating an observation changes nothing. */
  lemma RepeatIsNothing(os: seq<Observation>, o: Observation)
    requires o in os
    ensures ObserveAll(os + [o]) == ObserveAll(os)
  {
    assert SetOf(os + [o]) == SetOf(os);
    OrderDoesNotMatter(os + [o], os);
  }

  class EmitC {
    const overrides: map<nat, nat>
    var nodeStates: States
    var nodeCheckedForOverride: set<Node>
    /** All observations so far. */
    ghost var seen: seq<Observation>

    ghost predicate Valid()
      reads this
    {
      && ObserveAll(seen) == Some(nodeStates)
      && forall n {:trigger n in nodeCheckedForOverride} | n in nodeCheckedForOverride && n.symbol in overrides ::
           Observation(n, FunctionOf(overrides[n.symbol])) in seen
    }

    constructor (overrides: map<nat, nat>)
      ensures Valid() && seen == [] && this.overrides == overrides
    {
      this.overrides := overrides;
      nodeStates, nodeCheckedForOverride, seen := map[], {}, [];
    }

    /** `setNargs` */
    method SetNargs(node: Node, state: NodeState) returns (ok: bool)
      modifies `nodeStates
      ensures ok <==> !Clash(old(nodeStates), Observation(node, state))
      ensures nodeStates == if ok then Observed(old(nodeStates), Observation(node, state)) else old(nodeStates)
    {
      if node !in nodeStates {
        nodeStates := nodeStates[node := state];
      } else if nodeStates[node].Undefined? {
        nodeStates := nodeStates[node := state];
      } else if state.Undefined? {
      } else if nodeStates[node] != state {
        return false;
      }
      return true;
    }

    /** One observation, kept in the history. */
    method Note(o: Observation) returns (ok: bool)
      requires Valid()
      modifies `nodeStates, `seen
      ensures seen == old(seen) + [o]
      ensures if ok then Valid() else ObserveAll(seen).None?
    {
      ObserveOneMore(seen, o);
      ok := SetNargs(o.node, o.state);
      seen := seen + [o];
    }

    method NoteKind(e: Edge) returns (ok: bool)
      requires Valid()
      modifies `nodeStates, `seen
      ensures seen == old(seen) + KindSays(e)
      ensures if ok then Valid() else ObserveAll(seen).None?
    {
      ok := true;
      if e.Call? && e.callee.Symbol? {
        ok := Note(Observation(e.callee, FunctionOf(e.nargs)));
      } else if e.Store? && e.addr.Symbol? {
        ok := Note(Observation(e.addr, GlobalData));
      }
    }

    method NoteEnd(n: Node, symbol: nat) returns (ok: bool)
      requires Valid()
      modifies this
      ensures seen == old(seen) + EndSays(n, symbol, overrides)
      ensures if ok then Valid() else ObserveAll(seen).None?
    {
      if n.symbol == symbol {
        return true;
      }
      Associative(seen, [Observation(n, Undefined)], OverrideSays(n, overrides));
      ok := Note(Observation(n, Undefined));
      if !ok {
        NoneStays(seen, OverrideSays(n, overrides));
        seen := seen + OverrideSays(n, overrides);
        return;
      }
      ok := NoteOverride(n);
    }

    /** The override of a symbol is looked up only once. */
    method NoteOverride(n: Node) returns (ok: bool)
      requires Valid()
      modifies this
      ensures seen == old(seen) + OverrideSays(n, overrides)
      ensures nodeCheckedForOverride == old(nodeCheckedForOverride) + {n}
      ensures if ok then Valid() else ObserveAll(seen).None?
    {
      ok := true;
      EmptyUnit(seen);
      if n in nodeCheckedForOverride {
        if n.symbol in overrides {
          RepeatIsNothing(seen, Observation(n, FunctionOf(overrides[n.symbol])));
        }
        seen := seen + OverrideSays(n, overrides);
        return;
      }
      if n.symbol in overrides {
        ok := Note(Observation(n, FunctionOf(overrides[n.symbol])));
      }
      nodeCheckedForOverride := nodeCheckedForOverride + {n};
    }

    /** The visitor of one edge. */
    method VisitEdge(e: Edge, symbol: nat) returns (ok: bool)
      requires Valid() && EdgeOk(e, symbol)
      modifies this
      ensures ok ==> Valid() && seen == old(seen) + EdgeSays(e, symbol, overrides)
      ensures !ok ==> ObserveAll(old(seen) + EdgeSays(e, symbol, overrides)).None?
    {
      hide ObserveAll, KindSays, EndSays;
      var ends := Ends(e);
      ghost var kind := KindSays(e);
      ghost var first, second := EndSays(ends.0, symbol, overrides), EndSays(ends.1, symbol, overrides);
      Regroup(seen, kind, first, second);
      ghost var before := seen;
      ok := NoteKind(e);
      if !ok {
        NoneStays(before + kind, first + second);
        return;
      }
      ok := NoteEnd(ends.0, symbol);
      if !ok {
        NoneStays(before + kind + first, second);
        return;
      }
      ok := NoteEnd(ends.1, symbol);
    }

    /** The edges of a function, in order. */
    method VisitEdges(fi: FunctionInfo) returns (ok: bool, nargs: nat)
      requires Valid() && forall e | e in fi.edges :: EdgeOk(e, fi.symbol)
      modifies this
      ensures nargs == MaxArgs(fi.edges) || !ok
      ensures ok ==> Valid() && seen == old(seen) + EdgesSay(fi.edges, fi.symbol, overrides)
      ensures !ok ==> ObserveAll(old(seen) + EdgesSay(fi.edges, fi.symbol, overrides)).None?
    {
      hide ObserveAll;
      nargs := 0;
      EmptyUnit(seen);
      for i := 0 to |fi.edges|
        invariant Valid() && nargs == MaxArgs(fi.edges[..i])
        invariant seen == old(seen) + EdgesSay(fi.edges[..i], fi.symbol, overrides)
      {
        var e := fi.edges[i];
        MoreEdges(fi, i, overrides);
        Associative(old(seen), EdgesSay(fi.edges[..i], fi.symbol, overrides), EdgeSays(e, fi.symbol, overrides));
        ok := VisitEdge(e, fi.symbol);
        if !ok {
          EdgesGoOn(old(seen), fi, i + 1, overrides);
          return;
        }
        if e.ArgumentDefinition? && ArgCount(e.argNo) > nargs {
          nargs := ArgCount(e.argNo);
        }
      }
      WholeSlice(fi.edges);
      ok := true;
    }

    /** The edges of a function, and what they say about its number of arguments. */
    method VisitFunction(fi: FunctionInfo) returns (ok: bool)
      requires Valid() && forall e | e in fi.edges :: EdgeOk(e, fi.symbol)
      modifies this
      ensures ok ==> Valid() && seen == old(seen) + FunctionSays(fi, overrides)
      ensures !ok ==> ObserveAll(old(seen) + FunctionSays(fi, overrides)).None?
    {
      hide ObserveAll;
      ghost var last := [Observation(Symbol(fi.symbol), FunctionOf(MaxArgs(fi.edges)))];
      Associative(seen, EdgesSay(fi.edges, fi.symbol, overrides), last);
      ghost var edges := seen + EdgesSay(fi.edges, fi.symbol, overrides);
      var nargs;
      ok, nargs := VisitEdges(fi);
      if !ok {
        NoneStays(edges, last);
        return;
      }
      ok := Note(Observation(Symbol(fi.symbol), FunctionOf(nargs)));
    }

    /** The pass succeeds exactly when the observations are consistent, and then computes their joins. */
    method InitialPass(fis: seq<FunctionInfo>) returns (ok: bool)
      requires Valid() && seen == []
      requires forall fi, e | fi in fis && e in fi.edges :: EdgeOk(e, fi.symbol)
      modifies this
      ensures ok <==> ObserveAll(ProgramSays(fis, overrides)).Some?
      ensures ok ==> nodeStates == ObserveAll(ProgramSays(fis, overrides)).value
    {
      for i := 0 to |fis|
        invariant Valid() && seen == ProgramSays(fis[..i], overrides)
      {
        assert fis[i] in fis;
        assert fis[..i + 1][..i] == fis[..i];
        ok := VisitFunction(fis[i]);
        if !ok {
          ProgramGoesOn(fis, i + 1, overrides);
          return;
        }
      }
      assert fis[..|fis|] == fis;
      ok := true;
    }
  }

  lemma Regroup(a: seq<Observation>, b: seq<Observation>, c: seq<Observation>, d: seq<Observation>)
    ensures a + (b + c + d) == a + b + (c + d) == a + b + c + d
  {
  }

  lemma MoreEdges(fi: FunctionInfo, i: nat, overrides: map<nat, nat>)
    requires i < |fi.edges|
    ensures EdgesSay(fi.edges[..i + 1], fi.symbol, overrides)
      == EdgesSay(fi.edges[..i], fi.symbol, overrides) + EdgeSays(fi.edges[i], fi.symbol, overrides)
    ensures MaxArgs(fi.edges[..i + 1]) ==
      if fi.edges[i].ArgumentDefinition? && ArgCount(fi.edges[i].argNo) > MaxArgs(fi.edges[..i])
      then ArgCount(fi.edges[i].argNo)
      else MaxArgs(fi.edges[..i])
  {
    assert fi.edges[..i + 1][..i] == fi.edges[..i];
  }

  /** An error in the first edges is an error in all of them. */
  lemma {:induction false} EdgesGoOn(before: seq<Observation>, fi: FunctionInfo, i: nat, overrides: map<nat, nat>)
    requires i <= |fi.edges| && ObserveAll(before + EdgesSay(fi.edges[..i], fi.symbol, overrides)).None?
    ensures ObserveAll(before + EdgesSay(fi.edges, fi.symbol, overrides)).None?
    decreases |fi.edges| - i
  {
    hide ObserveAll;
    if i == |fi.edges| {
      WholeSlice(fi.edges);
    } else {
      MoreEdges(fi, i, overrides);
      Associative(before, EdgesSay(fi.edges[..i], fi.symbol, overrides), EdgeSays(fi.edges[i], fi.symbol, overrides));
      NoneStays(before + EdgesSay(fi.edges[..i], fi.symbol, overrides), EdgeSays(fi.edges[i], fi.symbol, overrides));
      EdgesGoOn(before, fi, i + 1, overrides);
    }
  }

  lemma MoreFunctions(fis: seq<FunctionInfo>, i: nat, overrides: map<nat, nat>)
    requires i < |fis|
    ensures ProgramSays(fis[..i + 1], overrides) == ProgramSays(fis[..i], overrides) + FunctionSays(fis[i], overrides)
  {
    assert fis[..i + 1][..i] == fis[..i];
  }

  /** An error in the first functions is an error in all of them. */
  lemma {:induction false} ProgramGoesOn(fis: seq<FunctionInfo>, i: nat, overrides: map<nat, nat>)
    requires i <= |fis| && ObserveAll(ProgramSays(fis[..i], overrides)).None?
    ensures ObserveAll(ProgramSays(fis, overrides)).None?
    decreases |fis| - i
  {
    hide ObserveAll;
    if i == |fis| {
      WholeSlice(fis);
    } else {
      MoreFunctions(fis, i, overrides);
      NoneStays(ProgramSays(fis[..i], overrides), FunctionSays(fis[i], overrides));
      ProgramGoesOn(fis, i + 1, overrides);
    }
  }

  // ---------------------------------------------------------------------------------------
  // Neither does the order of functions and edges
  // ---------------------------------------------------------------------------------------

  lemma InAppend<T>(a: seq<T>, b: seq<T>, x: T)
    ensures x in a + b <==> x in a || x in b
  {
  }

  lemma LastIsIn<T>(s: seq<T>)
    requires s != []
    ensures s == s[..|s| - 1] + [s[|s| - 1]]
    ensures s[|s| - 1] in s && forall x | x in s[..|s| - 1] :: x in s
    ensures forall x | x in s :: x in s[..|s| - 1] || x == s[|s| - 1]
  {
  }

  ghost predicate SomeFunctionSays(fis: seq<FunctionInfo>, overrides: map<nat, nat>, o: Observation) {
    exists fi :: fi in fis && o in FunctionSays(fi, overrides)
  }

  ghost predicate SomeEdgeSays(es: seq<Edge>, symbol: nat, overrides: map<nat, nat>, o: Observation) {
    exists e :: e in es && o in EdgeSays(e, symbol, overrides)
  }

  lemma {:induction false} ProgramSaysSet(fis: seq<FunctionInfo>, overrides: map<nat, nat>, o: Observation)
    ensures o in ProgramSays(fis, overrides) <==> SomeFunctionSays(fis, overrides, o)
  {
    if fis != [] {
      var init, last := fis[..|fis| - 1], fis[|fis| - 1];
      ProgramSaysSet(init, overrides, o);
      InAppend(ProgramSays(init, overrides), FunctionSays(last, overrides), o);
      LastIsIn(fis);
    }
  }

  lemma {:induction false} EdgesSaySet(es: seq<Edge>, symbol: nat, overrides: map<nat, nat>, o: Observation)
    ensures o in EdgesSay(es, symbol, overrides) <==> SomeEdgeSays(es, symbol, overrides, o)
  {
    if es != [] {
      var init, last := es[..|es| - 1], es[|es| - 1];
      EdgesSaySet(init, symbol, overrides, o);
      InAppend(EdgesSay(init, symbol, overrides), EdgeSays(last, symbol, overrides), o);
      LastIsIn(es);
    }
  }

  lemma {:induction false} MaxArgsIsMax(es: seq<Edge>)
    ensures forall e | e in es && e.ArgumentDefinition? :: (e.argNo + 1) % 0x1_0000_0000 <= MaxArgs(es)
    ensures MaxArgs(es) == 0 ||
      exists e :: e in es && e.ArgumentDefinition? && (e.argNo + 1) % 0x1_0000_0000 == MaxArgs(es)
  {
    if es != [] {
      MaxArgsIsMax(es[..|es| - 1]);
      LastIsIn(es);
    }
  }

  lemma MaxArgsOfPermuted(a: seq<Edge>, b: seq<Edge>)
    requires forall e :: e in a <==> e in b
    ensures MaxArgs(a) == MaxArgs(b)
  {
    MaxArgsIsMax(a);
    MaxArgsIsMax(b);
  }

  // ---------------------------------------------------------------------------------------
  // What the states say about the program
  // ---------------------------------------------------------------------------------------

  /**
   An edge of the function `symbol` says something about a node: a store to a global, that it is data; a call of a
   function, how many arguments that takes; and the mention of a symbol of another function that is known by name.
   */
  predicate EdgeTells(e: Edge, symbol: nat, overrides: map<nat, nat>, node: Node, state: NodeState) {
    || (e.Store? && e.addr == node && node.Symbol? && state == GlobalData)
    || (e.Call? && e.callee == node && node.Symbol? && state == Function(e.nargs % 0x1_0000))
    || (IsEnd(e, node) && node.symbol != symbol && node.symbol in overrides
          && state == Function(overrides[node.symbol] % 0x1_0000))
  }

  predicate IsEnd(e: Edge, node: Node) {
    match e
    case Call(callsite, callee, _) => node == callsite || node == callee
    case Store(addr, value) => node == addr || node == value
    case ArgumentDefinition(value, func, _) => node == value || node == func
    case Other(to, from) => node == to || node == from
  }

  /** Some edge says so, or it is the number of arguments that a function itself defines. */
  ghost predicate Tells(fis: seq<FunctionInfo>, overrides: map<nat, nat>, node: Node, state: NodeState) {
    exists fi :: fi in fis && FunctionTells(fi, overrides, node, state)
  }

  ghost predicate FunctionTells(fi: FunctionInfo, overrides: map<nat, nat>, node: Node, state: NodeState) {
    || (exists e :: e in fi.edges && EdgeTells(e, fi.symbol, overrides, node, state))
    || (node == Symbol(fi.symbol) && state == Function(MaxArgs(fi.edges) % 0x1_0000))
  }

  lemma EdgeTellsIff(e: Edge, symbol: nat, overrides: map<nat, nat>, node: Node, state: NodeState)
    requires !state.Undefined?
    ensures Observation(node, state) in EdgeSays(e, symbol, overrides) <==> EdgeTells(e, symbol, overrides, node, state)
  {
    var o := Observation(node, state);
    InAppend(KindSays(e) + EndSays(Ends(e).0, symbol, overrides), EndSays(Ends(e).1, symbol, overrides), o);
    InAppend(KindSays(e), EndSays(Ends(e).0, symbol, overrides), o);
    EndTellsIff(Ends(e).0, symbol, overrides, node, state);
    EndTellsIff(Ends(e).1, symbol, overrides, node, state);
  }

  lemma EndTellsIff(n: Node, symbol: nat, overrides: map<nat, nat>, node: Node, state: NodeState)
    requires !state.Undefined?
    ensures Observation(node, state) in EndSays(n, symbol, overrides) <==>
      n == node && n.symbol != symbol && n.symbol in overrides && state == Function(overrides[n.symbol] % 0x1_0000)
  {
    InAppend([Observation(n, Undefined)], OverrideSays(n, overrides), Observation(node, state));
  }

  lemma FunctionTellsIff(fi: FunctionInfo, overrides: map<nat, nat>, node: Node, state: NodeState)
    requires !state.Undefined?
    ensures Observation(node, state) in FunctionSays(fi, overrides) <==> FunctionTells(fi, overrides, node, state)
  {
    var o := Observation(node, state);
    EdgesSaySet(fi.edges, fi.symbol, overrides, o);
    var own := Observation(Symbol(fi.symbol), FunctionOf(MaxArgs(fi.edges)));
    InAppend(EdgesSay(fi.edges, fi.symbol, overrides), [own], o);
    forall e ensures o in EdgeSays(e, fi.symbol, overrides) <==> EdgeTells(e, fi.symbol, overrides, node, state) {
      EdgeTellsIff(e, fi.symbol, overrides, node, state);
    }
  }

  /** After a pass without error, a node is known to be data or a function exactly as the program tells. */
  lemma StatesAreTold(fis: seq<FunctionInfo>, overrides: map<nat, nat>, node: Node, state: NodeState)
    requires ObserveAll(ProgramSays(fis, overrides)).Some? && !state.Undefined?
    ensures
      var states := ObserveAll(ProgramSays(fis, overrides)).value;
      node in states && states[node] == state <==> Tells(fis, overrides, node, state)
  {
    var os := ProgramSays(fis, overrides);
    var states, o := ObserveAll(os).value, Observation(node, state);
    ObserveAllIff(os);
    ProgramSaysSet(fis, overrides, o);
    forall fi ensures o in FunctionSays(fi, overrides) <==> FunctionTells(fi, overrides, node, state) {
      FunctionTellsIff(fi, overrides, node, state);
    }
    assert o in os <==> Tells(fis, overrides, node, state);
    ObservedIsState(SetOf(os), states, o);
  }

  /** The functions themselves are known, and what their edges mention of others. */
  ghost predicate IsKnownFrom(fi: FunctionInfo, node: Node) {
    node == Symbol(fi.symbol) || (node.symbol != fi.symbol && exists e :: e in fi.edges && IsEnd(e, node))
  }

  ghost predicate NodeIn(os: seq<Observation>, node: Node) {
    exists o :: o in os && o.node == node
  }

  lemma EdgeMentionsIff(e: Edge, symbol: nat, overrides: map<nat, nat>, node: Node)
    requires node != Symbol(symbol)
    ensures NodeIn(EdgeSays(e, symbol, overrides), node) <==> IsEnd(e, node) && node.symbol != symbol
  {
    var a, b, c := KindSays(e), EndSays(Ends(e).0, symbol, overrides), EndSays(Ends(e).1, symbol, overrides);
    forall o ensures o in EdgeSays(e, symbol, overrides) <==> o in a || o in b || o in c {
      InAppend(a + b, c, o);
      InAppend(a, b, o);
    }
    if IsEnd(e, node) && node.symbol != symbol {
      assert Observation(node, Undefined) in b || Observation(node, Undefined) in c;
      assert Observation(node, Undefined) in EdgeSays(e, symbol, overrides);
    }
  }

  lemma InFunctionSays(fi: FunctionInfo, overrides: map<nat, nat>, o: Observation)
    ensures o in FunctionSays(fi, overrides) <==>
      || o == Observation(Symbol(fi.symbol), FunctionOf(MaxArgs(fi.edges)))
      || SomeEdgeSays(fi.edges, fi.symbol, overrides, o)
  {
    EdgesSaySet(fi.edges, fi.symbol, overrides, o);
    var own := Observation(Symbol(fi.symbol), FunctionOf(MaxArgs(fi.edges)));
    InAppend(EdgesSay(fi.edges, fi.symbol, overrides), [own], o);
  }

  lemma FunctionKnowsIff(fi: FunctionInfo, overrides: map<nat, nat>, node: Node)
    ensures NodeIn(FunctionSays(fi, overrides), node) <==> IsKnownFrom(fi, node)
  {
    hide FunctionSays, EdgeSays, IsEnd, FunctionOf, MaxArgs;
    forall o {
      InFunctionSays(fi, overrides, o);
    }
    if node == Symbol(fi.symbol) {
      assert Observation(node, FunctionOf(MaxArgs(fi.edges))) in FunctionSays(fi, overrides);
    } else {
      forall e {
        EdgeMentionsIff(e, fi.symbol, overrides, node);
      }
      if IsKnownFrom(fi, node) {
        var e :| e in fi.edges && IsEnd(e, node);
        var o :| o in EdgeSays(e, fi.symbol, overrides) && o.node == node;
        assert SomeEdgeSays(fi.edges, fi.symbol, overrides, o);
      }
      if NodeIn(FunctionSays(fi, overrides), node) {
        var o :| o in FunctionSays(fi, overrides) && o.node == node;
        var e :| e in fi.edges && o in EdgeSays(e, fi.symbol, overrides);
        assert NodeIn(EdgeSays(e, fi.symbol, overrides), node);
      }
    }
  }

  /** After a pass without error, the nodes with a state are the functions and what they mention of others. */
  lemma KnownNodes(fis: seq<FunctionInfo>, overrides: map<nat, nat>, node: Node)
    requires ObserveAll(ProgramSays(fis, overrides)).Some?
    ensures node in ObserveAll(ProgramSays(fis, overrides)).value <==> exists fi :: fi in fis && IsKnownFrom(fi, node)
  {
    var os := ProgramSays(fis, overrides);
    var states := ObserveAll(os).value;
    ObserveAllIff(os);
    forall o ensures o in os <==> SomeFunctionSays(fis, overrides, o) {
      ProgramSaysSet(fis, overrides, o);
    }
    forall fi {
      FunctionKnowsIff(fi, overrides, node);
    }
    if node in states {
      assert IsJoin(SetOf(os), node, states[node]);
      var o :| o in SetOf(os) && o.node == node;
      var fi :| fi in fis && o in FunctionSays(fi, overrides);
      assert NodeIn(FunctionSays(fi, overrides), node);
    }
    if exists fi :: fi in fis && IsKnownFrom(fi, node) {
      var fi :| fi in fis && IsKnownFrom(fi, node);
      var o :| o in FunctionSays(fi, overrides) && o.node == node;
      assert o in SetOf(os);
    }
  }

  lemma ObservedIsState(os: set<Observation>, states: States, o: Observation)
    requires Consistent(os) && IsJoinMap(os, states) && !o.state.Undefined?
    ensures o in os <==> o.node in states && states[o.node] == o.state
  {
    if o in os {
      assert IsJoin(os, o.node, states[o.node]);
    }
    if o.node in states && states[o.node] == o.state {
      assert IsJoin(os, o.node, states[o.node]);
    }
  }

  /** The same function, with its edges in another order. */
  ghost predicate SameFunction(a: FunctionInfo, b: FunctionInfo) {
    a.symbol == b.symbol && forall e :: e in a.edges <==> e in b.edges
  }

  /** Every function of `a` is in `b`, perhaps with its edges in another order. */
  ghost predicate PartOf(a: seq<FunctionInfo>, b: seq<FunctionInfo>) {
    forall fi | fi in a :: exists other :: other in b && SameFunction(fi, other)
  }

  lemma SameFunctionSays(a: FunctionInfo, b: FunctionInfo, overrides: map<nat, nat>, o: Observation)
    requires SameFunction(a, b)
    ensures o in FunctionSays(a, overrides) <==> o in FunctionSays(b, overrides)
  {
    EdgesSaySet(a.edges, a.symbol, overrides, o);
    EdgesSaySet(b.edges, b.symbol, overrides, o);
    assert SomeEdgeSays(a.edges, a.symbol, overrides, o) <==> SomeEdgeSays(b.edges, b.symbol, overrides, o);
    MaxArgsOfPermuted(a.edges, b.edges);
  }

  lemma PartSays(a: seq<FunctionInfo>, b: seq<FunctionInfo>, overrides: map<nat, nat>, o: Observation)
    requires PartOf(a, b) && o in ProgramSays(a, overrides)
    ensures o in ProgramSays(b, overrides)
  {
    ProgramSaysSet(a, overrides, o);
    ProgramSaysSet(b, overrides, o);
    var fi :| fi in a && o in FunctionSays(fi, overrides);
    var other :| other in b && SameFunction(fi, other);
    SameFunctionSays(fi, other, overrides, o);
  }

  /** The pass gives the same result whatever the order of the functions and of their edges. */
  lemma PassIsOrderIndependent(a: seq<FunctionInfo>, b: seq<FunctionInfo>, overrides: map<nat, nat>)
    requires PartOf(a, b) && PartOf(b, a)
    ensures ObserveAll(ProgramSays(a, overrides)) == ObserveAll(ProgramSays(b, overrides))
  {
    forall o ensures o in ProgramSays(a, overrides) <==> o in ProgramSays(b, overrides) {
      if o in ProgramSays(a, overrides) {
        PartSays(a, b, overrides, o);
      }
      if o in ProgramSays(b, overrides) {
        PartSays(b, a, overrides, o);
      }
    }
    assert SetOf(ProgramSays(a, overrides)) == SetOf(ProgramSays(b, overrides));
    OrderDoesNotMatter(ProgramSays(a, overrides), ProgramSays(b, overrides));
  }
}
