/**
 Where every call names its callee, the analysis is exact: it finds the functions that some run activates, and no
 others.
 */
module DirectCalls {
  import opened EdgeEncoding
  import opened Justifications
  import opened PointerMachine
  import opened SimpleRules

  /** Every call is of a function that is named and recorded, and starts no threads. */
  ghost predicate OnlyDirect(p: Program) {
    forall cs, callee | InCode(p, Call(cs, callee)) :: !IsIndirect(p, callee) && callee.symbol in p.code
  }

  /** The edges of a function mention no locals of other functions; the writer asserts this. */
  ghost predicate OwnLocals(p: Program) {
    forall f, e, n | Has(p, f, e) && Mentions(e, n) && n.Local? :: n.symbol == f
  }

  /** Function `f` has an edge for a call of `g`. */
  ghost predicate Calls(p: Program, f: nat, g: nat) {
    exists cs: Node :: cs.Local? && Has(p, f, Call(cs, Symbol(g)))
  }

  /** A chain of calls from a root on. */
  ghost predicate IsCallChain(p: Program, chain: seq<nat>) {
    && chain != [] && chain[0] in p.roots
    && (forall i | 0 <= i < |chain| :: chain[i] in p.code)
    && forall i {:trigger Calls(p, chain[i - 1], chain[i])} | 0 < i < |chain| :: Calls(p, chain[i - 1], chain[i])
  }

  /** What the general chains come to here. */
  lemma MayCallIsCalls(p: Program, f: Node, g: Node)
    requires OnlyDirect(p) && OwnLocals(p) && MayCall(p, f, g)
    ensures f.Symbol? && g.Symbol? && Calls(p, f.symbol, g.symbol) && f.symbol in p.code && g.symbol in p.code
  {
    var cs, callee :|
      CallsFrom(p, f, cs, callee) && ((callee == g && g.Symbol?) || (IsIndirect(p, callee) && IsMentioned(p, g)));
    var h :| Has(p, h, Call(cs, callee));
    assert Mentions(Call(cs, callee), cs);
    assert cs.symbol == h == f.symbol;
  }

  lemma ChainIsCallChain(p: Program, chain: seq<Node>) returns (calls: seq<nat>)
    requires OnlyDirect(p) && OwnLocals(p) && IsChain(p, chain)
    requires chain[|chain| - 1].Symbol? && chain[|chain| - 1].symbol in p.code
    ensures IsCallChain(p, calls) && calls[|calls| - 1] == chain[|chain| - 1].symbol
  {
    hide MayCall, Calls;
    forall i | 0 <= i < |chain| ensures chain[i].Symbol? && chain[i].symbol in p.code {
      if i > 0 {
        assert MayCall(p, chain[i - 1], chain[i]);
        MayCallIsCalls(p, chain[i - 1], chain[i]);
      } else if |chain| > 1 {
        var next := i + 1;
        assert MayCall(p, chain[next - 1], chain[next]);
        MayCallIsCalls(p, chain[i], chain[next]);
      }
    }
    calls := seq(|chain|, i requires 0 <= i < |chain| => chain[i].symbol);
    forall i | 0 < i < |calls| ensures Calls(p, calls[i - 1], calls[i]) {
      assert MayCall(p, chain[i - 1], chain[i]);
      MayCallIsCalls(p, chain[i - 1], chain[i]);
    }
  }

  /** A direct call from a reachable function. */
  lemma CalledIsReachable(p: Program, f: nat, g: nat)
    requires Calls(p, f, g) && Derives(p, false, Reachable(Symbol(f)))
    ensures Derives(p, false, Reachable(Symbol(g)))
  {
    var cs: Node :| cs.Local? && Has(p, f, Call(cs, Symbol(g)));
    var e := Call(cs, Symbol(g));
    assert InCode(p, e) && Mentions(e, cs) && Mentions(e, Symbol(g));
    assert EnclosingFunctionForLocal(p, Symbol(f), cs) && IsSymbol(p, Symbol(g));
    assert Derives(p, false, CallGraph(cs, Symbol(g), Direct));
  }

  lemma {:induction false} ChainIsReachable(p: Program, chain: seq<nat>, i: nat)
    requires IsCallChain(p, chain) && i < |chain|
    ensures Derives(p, false, Reachable(Symbol(chain[i])))
  {
    hide Calls;
    if i > 0 {
      ChainIsReachable(p, chain, i - 1);
      CalledIsReachable(p, chain[i - 1], chain[i]);
    } else {
      assert chain[0] in p.roots;
    }
  }

  // ---------------------------------------------------------------------------------------
  // A run along a chain
  // ---------------------------------------------------------------------------------------

  /** Frames 0 to `i` are those of the first functions of the chain. */
  ghost predicate HasFrames(s: State, chain: seq<nat>, i: nat)
    requires i < |chain|
  {
    && (forall k: nat :: k in s.frames <==> k <= i)
    && s.frames[i].fn == chain[i] && chain[i] in s.activated
  }

  ghost predicate EndsAt(p: Program, chain: seq<nat>, i: nat, tr: seq<State>, steps: seq<Step>)
    requires i < |chain|
  {
    IsRun(p, tr, steps) && HasFrames(tr[|steps|], chain, i)
  }

  lemma StartOfChain(p: Program, chain: seq<nat>)
    requires IsCallChain(p, chain)
    ensures EndsAt(p, chain, 0, [State(map[0 := Frame(chain[0], map[], NoCaller)], map[], {chain[0]}, {})], [])
  {
  }

  lemma NextOfChain(p: Program, chain: seq<nat>, i: nat, tr: seq<State>, steps: seq<Step>)
      returns (tr': seq<State>, steps': seq<Step>)
    requires IsCallChain(p, chain) && i + 1 < |chain| && EndsAt(p, chain, i, tr, steps)
    ensures EndsAt(p, chain, i + 1, tr', steps')
  {
    var s, j := tr[|steps|], i + 1;
    var g := chain[j];
    assert Calls(p, chain[j - 1], chain[j]);
    var cs: Node :| cs.Local? && Has(p, chain[i], Call(cs, Symbol(g)));
    var step := Enter(i, cs, Symbol(g), g, j);
    var s' := Activate(s, j, Frame(g, map[], CalledAt(i, cs)), cs);
    assert Steps(p, s, step, s');
    tr', steps' := tr + [s'], steps + [step];
    forall m | 0 <= m < |steps'| ensures StepOk(p, tr', steps', m) {
      assert m < |steps| ==> StepOk(p, tr, steps, m);
    }
  }

  lemma {:induction false} RunAlongChain(p: Program, chain: seq<nat>, i: nat)
      returns (tr: seq<State>, steps: seq<Step>)
    requires IsCallChain(p, chain) && i < |chain|
    ensures EndsAt(p, chain, i, tr, steps)
  {
    if i == 0 {
      StartOfChain(p, chain);
      tr, steps := [State(map[0 := Frame(chain[0], map[], NoCaller)], map[], {chain[0]}, {})], [];
    } else {
      tr, steps := RunAlongChain(p, chain, i - 1);
      tr, steps := NextOfChain(p, chain, i - 1, tr, steps);
    }
  }

  // ---------------------------------------------------------------------------------------
  // Exactness
  // ---------------------------------------------------------------------------------------

  ghost predicate RunActivates(p: Program, tr: seq<State>, steps: seq<Step>, g: nat) {
    IsRun(p, tr, steps) && g in tr[|steps|].activated
  }

  lemma ReachableIsActivated(p: Program, completed: bool, g: nat) returns (tr: seq<State>, steps: seq<Step>)
    requires OnlyDirect(p) && OwnLocals(p) && g in p.code && Derives(p, completed, Reachable(Symbol(g)))
    ensures RunActivates(p, tr, steps, g) && Derives(p, false, Reachable(Symbol(g)))
  {
    hide Derives, MayCall, Calls, IsRun, OnlyDirect, OwnLocals;
    var nodes := ReachableHasChain(p, completed, Symbol(g));
    var chain := ChainIsCallChain(p, nodes);
    ChainIsReachable(p, chain, |chain| - 1);
    tr, steps := RunAlongChain(p, chain, |chain| - 1);
  }

  /** A recorded function is found to be reachable exactly when some run activates it. */
  lemma DirectCallsAreExact(p: Program, g: nat)
    requires WellFormed(p) && OwnLocals(p) && OnlyDirect(p) && g in p.code
    ensures Derives(p, false, Reachable(Symbol(g))) <==> exists tr, steps :: RunActivates(p, tr, steps, g)
  {
    if Derives(p, false, Reachable(Symbol(g))) {
      var tr, steps := ReachableIsActivated(p, false, g);
    }
    if exists tr, steps :: RunActivates(p, tr, steps, g) {
      var tr, steps :| RunActivates(p, tr, steps, g);
      CompletedRulesAreSound(p, tr, steps, |steps|);
      var tr', steps' := ReachableIsActivated(p, true, g);
    }
  }
}
