/**
 A pointer machine that runs the recorded edges, and the soundness of the simple rules for it.

 Every frame may fire any edge of its function at any time, memory cells remember everything
 ever stored in them, and objects have a single cell: the machine over-approximates any program
 whose pointer flow the recorded edges describe.
 */
module PointerMachine {
  import opened EdgeEncoding
  import opened SimpleRules

  datatype Value = Address(addr: nat) | Object(id: nat)

  datatype Caller = NoCaller | CalledAt(frame: nat, callsite: Node)

  datatype Frame = Frame(fn: nat, env: map<Node, Value>, caller: Caller)

  /** `activated` and `called` are history variables: functions entered, and dynamic calls made. */
  datatype State = State(
    frames: map<nat, Frame>,
    mem: map<Value, set<Value>>,
    activated: set<nat>,
    called: set<(Node, nat)>
  )

  datatype Step =
    | Copy(k: nat, to: Node, from: Node, v: Value)
    | LoadFrom(k: nat, into: Node, addr: Node, a: Value, v: Value)
    | StoreTo(k: nat, addr: Node, value: Node, a: Value, v: Value)
    | Allocate(k: nat, local: Node, id: nat)
    | Enter(k: nat, callsite: Node, callee: Node, g: nat, j: nat)
    | Pass(j: nat, arg: Node, i: nat, x: Node, v: Value)
    | Leave(j: nat, value: Node, v: Value)
    | LeaveVoid(j: nat)
    | Spawn(k: nat, callsite: Node, starter: Node, arg: Node, i: nat, path: seq<Value>, j: nat, env: map<Node, Value>)

  /** In frame `fr`, node `n` has value `v`. */
  predicate Holds(fr: Frame, n: Node, v: Value) {
    match n
    case Symbol(a) => v == Address(a)
    case Local(_, _) => n in fr.env && fr.env[n] == v
  }

  function Cell(s: State, a: Value): set<Value> {
    if a in s.mem then s.mem[a] else {}
  }

  function SetLocal(s: State, k: nat, n: Node, v: Value): State
    requires k in s.frames
  {
    s.(frames := s.frames[k := s.frames[k].(env := s.frames[k].env[n := v])])
  }

  function Activate(s: State, j: nat, fr: Frame, callsite: Node): State {
    s.(frames := s.frames[j := fr], activated := s.activated + {fr.fn}, called := s.called + {(callsite, fr.fn)})
  }

  /** Each value on the path is stored in the cell that the one before it points to. */
  predicate Chases(s: State, path: seq<Value>) {
    && path != []
    && forall i | 0 < i < |path| :: path[i] in Cell(s, path[i - 1])
  }

  predicate Does(p: Program, s: State, k: nat, e: Edge) {
    k in s.frames && Has(p, s.frames[k].fn, e)
  }

  ghost predicate Steps(p: Program, s: State, step: Step, s': State) {
    match step
    case Copy(k, to, from, v) =>
      && Does(p, s, k, Assign(to, from)) && Holds(s.frames[k], from, v)
      && s' == SetLocal(s, k, to, v)
    case LoadFrom(k, into, addr, a, v) =>
      && Does(p, s, k, Load(into, addr)) && Holds(s.frames[k], addr, a) && v in Cell(s, a)
      && s' == SetLocal(s, k, into, v)
    case StoreTo(k, addr, value, a, v) =>
      && Does(p, s, k, Store(addr, value)) && Holds(s.frames[k], addr, a) && Holds(s.frames[k], value, v)
      && s' == s.(mem := s.mem[a := Cell(s, a) + {v}])
    case Allocate(k, local, id) =>
      && k in s.frames
      && s' == SetLocal(s, k, local, Object(id))
    case Enter(k, cs, callee, g, j) =>
      && Does(p, s, k, Call(cs, callee)) && Holds(s.frames[k], callee, Address(g))
      && g in p.code && j !in s.frames
      && s' == Activate(s, j, Frame(g, map[], CalledAt(k, cs)), cs)
    case Pass(j, arg, i, x, v) =>
      && j in s.frames && s.frames[j].caller.CalledAt?
      && var CalledAt(k, cs) := s.frames[j].caller;
      && Does(p, s, k, ArgumentSupply(cs, arg, i)) && Holds(s.frames[k], arg, v)
      && Does(p, s, j, ArgumentDefinition(x, Symbol(s.frames[j].fn), i))
      && s' == SetLocal(s, j, x, v)
    case Leave(j, value, v) =>
      && j in s.frames && s.frames[j].caller.CalledAt?
      && var CalledAt(k, cs) := s.frames[j].caller;
      && k in s.frames && k != j
      && Does(p, s, j, Return(Symbol(s.frames[j].fn), value)) && Holds(s.frames[j], value, v)
      && var t := SetLocal(s, k, cs, v);
      && s' == t.(frames := t.frames - {j})
    case LeaveVoid(j) =>
      s' == s.(frames := s.frames - {j})
    case Spawn(k, cs, starter, arg, i, path, j, env) =>
      && Does(p, s, k, Call(cs, starter)) && StartsThreads(p, starter)
      && Does(p, s, k, ArgumentSupply(cs, arg, i))
      && Chases(s, path) && Holds(s.frames[k], arg, path[0])
      && path[|path| - 1].Address? && path[|path| - 1].addr in p.code && j !in s.frames
      && (forall x | x in env :: env[x] in path)
      && s' == Activate(s, j, Frame(path[|path| - 1].addr, env, NoCaller), cs)
  }

  // ---------------------------------------------------------------------------------------
  // Where runs start
  // ---------------------------------------------------------------------------------------

  /** The globals hold what their initialisers put there. */
  ghost predicate InitialMemory(p: Program, mem: map<Value, set<Value>>) {
    forall a, v | a in mem && v in mem[a] :: Initialised(p, a, v)
  }

  ghost predicate Initialised(p: Program, a: Value, v: Value) {
    a.Address? && v.Address? && exists path :: Initialises(p, Symbol(a.addr), path, Symbol(v.addr))
  }

  ghost predicate Initial(p: Program, s: State) {
    && InitialMemory(p, s.mem)
    && s.called == {}
    && exists main | main in p.roots && main in p.code ::
      s.frames == map[0 := Frame(main, map[], NoCaller)] && s.activated == {main}
  }

  /**
   What is needed of the edges that the compiler pass makes for function `f`: what an instruction defines is a
   local, and the callsite of a call is one of `f`. The writer of the metadata would take other edges, too.
   */
  predicate EdgeOk(f: nat, e: Edge) {
    && (e.Assign? ==> e.to.Local?)
    && (e.Load? ==> e.into.Local?)
    && (e.Call? ==> e.callsite.Local? && e.callsite.symbol == f)
    && (e.ArgumentSupply? ==> e.callsite.Local?)
  }

  ghost predicate WellFormed(p: Program) {
    forall f, e | Has(p, f, e) :: EdgeOk(f, e)
  }

  // ---------------------------------------------------------------------------------------
  // The invariant of soundness
  // ---------------------------------------------------------------------------------------

  ghost predicate IsReferenced(p: Program, completed: bool, v: Value) {
    v.Address? ==> Derives(p, completed, Referenced(Symbol(v.addr)))
  }

  ghost predicate IsReachable(p: Program, completed: bool, g: nat) {
    Derives(p, completed, Reachable(Symbol(g)))
  }

  ghost predicate InCallGraph(p: Program, completed: bool, callsite: Node, g: nat) {
    exists kind :: Derives(p, completed, CallGraph(callsite, Symbol(g), kind))
  }

  ghost predicate FrameOk(p: Program, completed: bool, s: State, k: nat)
    requires k in s.frames
  {
    && s.frames[k].fn in s.activated
    && forall n | n in s.frames[k].env :: IsReferenced(p, completed, s.frames[k].env[n])
  }

  /** What a cell holds is referenced as soon as its address is. */
  ghost predicate CellOk(p: Program, completed: bool, s: State, a: Value) {
    IsReferenced(p, completed, a) ==> forall v | v in Cell(s, a) :: IsReferenced(p, completed, v)
  }

  ghost predicate FramesOk(p: Program, completed: bool, s: State) {
    forall k | k in s.frames :: FrameOk(p, completed, s, k)
  }

  ghost predicate CellsOk(p: Program, completed: bool, s: State) {
    forall a :: CellOk(p, completed, s, a)
  }

  ghost predicate HistoryOk(p: Program, completed: bool, s: State) {
    && (forall g | g in s.activated :: IsReachable(p, completed, g))
    && (forall c | c in s.called :: InCallGraph(p, completed, c.0, c.1))
  }

  ghost predicate Sound(p: Program, completed: bool, s: State) {
    FramesOk(p, completed, s) && CellsOk(p, completed, s) && HistoryOk(p, completed, s)
  }

  // ---------------------------------------------------------------------------------------
  // What the rules say about one edge of a reachable function
  // ---------------------------------------------------------------------------------------

  /** A symbol in the second place of an edge, next to a local of the function, is referenced. */
  lemma SymbolNextToLocal(p: Program, completed: bool, f: nat, e: Edge, y: Node, x: Node)
    requires Has(p, f, e) && IsReachable(p, completed, f) && x.Symbol? && y.Local?
    requires
      || e == Assign(y, x) || e == Load(y, x) || e == Store(y, x)
      || (e.ArgumentSupply? && e == ArgumentSupply(y, x, e.idx))
    ensures Derives(p, completed, Referenced(x))
  {
    assert InCode(p, e) && Mentions(e, x) && Mentions(e, y);
    assert EnclosingFunctionForLocal(p, Symbol(f), y);
    assert EitherIn(p, Symbol(f), x, y);
    assert IsSymbol(p, x) && IsLocal(p, y);
    if e.Store? {
      assert Derives(p, completed, Stored(y, x));
    } else {
      assert FromValue(p, y, x);
    }
    assert Derives(p, completed, ReferencedFrom(x, Symbol(f)));
  }

  /** Only the completed rules have a clause for a symbol that is returned. */
  lemma SymbolReturned(p: Program, f: nat, x: Node)
    requires Has(p, f, Return(Symbol(f), x)) && IsReachable(p, true, f) && x.Symbol?
    ensures Derives(p, true, Referenced(x))
  {
    var e := Return(Symbol(f), x);
    assert InCode(p, e) && Mentions(e, x);
    assert IsSymbol(p, x);
    assert Derives(p, true, ReferencedFrom(x, Symbol(f)));
  }

  lemma StoredInGlobal(p: Program, completed: bool, f: nat, d: Node, x: Node)
    requires Has(p, f, Store(d, x)) && Derives(p, completed, Referenced(d))
    ensures Derives(p, completed, Referenced(x))
  {
    assert InCode(p, Store(d, x));
    assert Derives(p, completed, Stored(d, x));
  }

  /** A callee reached through an edge of a reachable function is in the call graph, and reachable. */
  lemma CalleeReached(p: Program, completed: bool, f: nat, cs: Node, callee: Node, g: nat)
    requires Has(p, f, Call(cs, callee)) && EdgeOk(f, Call(cs, callee)) && IsReachable(p, completed, f)
    requires
      || callee == Symbol(g)
      || ((callee.Local? || StartsThreads(p, callee)) && IsReferenced(p, completed, Address(g)))
    ensures InCallGraph(p, completed, cs, g) && IsReachable(p, completed, g)
  {
    var e := Call(cs, callee);
    assert InCode(p, e) && Mentions(e, cs) && Mentions(e, callee);
    assert EnclosingFunctionForLocal(p, Symbol(f), cs);
    var kind := if callee == Symbol(g) then Direct else Conservative;
    if callee.Symbol? {
      assert IsSymbol(p, callee);
    } else {
      assert EnclosingFunctionForLocal(p, Symbol(f), callee);
      assert IsLocal(p, callee);
    }
    assert Derives(p, completed, CallGraph(cs, Symbol(g), kind));
  }

  // ---------------------------------------------------------------------------------------
  // Every step keeps soundness
  // ---------------------------------------------------------------------------------------

  /** The value of a local is referenced; that of a symbol is as soon as the symbol is. */
  lemma ValueReferenced(p: Program, completed: bool, s: State, k: nat, n: Node, v: Value)
    requires k in s.frames && FrameOk(p, completed, s, k) && Holds(s.frames[k], n, v)
    requires n.Symbol? ==> Derives(p, completed, Referenced(n))
    ensures IsReferenced(p, completed, v)
  {
  }

  /** As `ValueReferenced`, for the node read by an edge whose other end is a local. */
  lemma OperandReferenced(p: Program, completed: bool, s: State, k: nat, e: Edge, y: Node, x: Node, v: Value)
    requires Sound(p, completed, s) && Does(p, s, k, e) && Holds(s.frames[k], x, v) && y.Local?
    requires
      || e == Assign(y, x) || e == Load(y, x) || e == Store(y, x)
      || (e.ArgumentSupply? && e == ArgumentSupply(y, x, e.idx))
    ensures IsReferenced(p, completed, v)
  {
    assert FrameOk(p, completed, s, k);
    if x.Symbol? {
      SymbolNextToLocal(p, completed, s.frames[k].fn, e, y, x);
    }
    ValueReferenced(p, completed, s, k, x, v);
  }

  lemma CellsKept(p: Program, completed: bool, s: State, s': State)
    requires CellsOk(p, completed, s) && s'.mem == s.mem
    ensures CellsOk(p, completed, s')
  {
    forall a ensures CellOk(p, completed, s', a) {
      assert CellOk(p, completed, s, a) && Cell(s', a) == Cell(s, a);
    }
  }

  lemma SetLocalFrames(p: Program, completed: bool, s: State, k: nat, n: Node, v: Value)
    requires FramesOk(p, completed, s) && k in s.frames && IsReferenced(p, completed, v)
    ensures FramesOk(p, completed, SetLocal(s, k, n, v))
  {
    var s' := SetLocal(s, k, n, v);
    assert FrameOk(p, completed, s, k);
    forall j | j in s'.frames ensures FrameOk(p, completed, s', j) {
      assert FrameOk(p, completed, s, j);
    }
  }

  lemma SetLocalSound(p: Program, completed: bool, s: State, k: nat, n: Node, v: Value)
    requires Sound(p, completed, s) && k in s.frames && IsReferenced(p, completed, v)
    ensures Sound(p, completed, SetLocal(s, k, n, v))
  {
    SetLocalFrames(p, completed, s, k, n, v);
    CellsKept(p, completed, s, SetLocal(s, k, n, v));
  }

  lemma ActivateSound(p: Program, completed: bool, s: State, j: nat, fr: Frame, cs: Node)
    requires Sound(p, completed, s) && IsReachable(p, completed, fr.fn) && InCallGraph(p, completed, cs, fr.fn)
    requires forall n | n in fr.env :: IsReferenced(p, completed, fr.env[n])
    ensures Sound(p, completed, Activate(s, j, fr, cs))
  {
    var s' := Activate(s, j, fr, cs);
    forall i | i in s'.frames ensures FrameOk(p, completed, s', i) {
      assert i != j ==> FrameOk(p, completed, s, i);
    }
    CellsKept(p, completed, s, s');
  }

  lemma RemoveSound(p: Program, completed: bool, s: State, j: nat)
    requires Sound(p, completed, s)
    ensures Sound(p, completed, s.(frames := s.frames - {j}))
  {
    var s' := s.(frames := s.frames - {j});
    forall i | i in s'.frames ensures FrameOk(p, completed, s', i) {
      assert FrameOk(p, completed, s, i);
    }
    CellsKept(p, completed, s, s');
  }

  /** What is stored is referenced if the address it is stored at is. */
  lemma StoredValueReferenced(
      p: Program, completed: bool, s: State, k: nat, addr: Node, value: Node, a: Value, v: Value)
    requires Sound(p, completed, s) && Does(p, s, k, Store(addr, value))
    requires Holds(s.frames[k], addr, a) && Holds(s.frames[k], value, v)
    ensures IsReferenced(p, completed, a) ==> IsReferenced(p, completed, v)
  {
    assert FrameOk(p, completed, s, k);
    if addr.Local? {
      OperandReferenced(p, completed, s, k, Store(addr, value), addr, value, v);
    } else if value.Local? {
      ValueReferenced(p, completed, s, k, value, v);
    } else if IsReferenced(p, completed, a) {
      StoredInGlobal(p, completed, s.frames[k].fn, addr, value);
    }
  }

  lemma StoreCells(p: Program, completed: bool, s: State, a: Value, v: Value)
    requires CellsOk(p, completed, s) && (IsReferenced(p, completed, a) ==> IsReferenced(p, completed, v))
    ensures CellsOk(p, completed, s.(mem := s.mem[a := Cell(s, a) + {v}]))
  {
    var s' := s.(mem := s.mem[a := Cell(s, a) + {v}]);
    forall b ensures CellOk(p, completed, s', b) {
      assert CellOk(p, completed, s, b);
    }
  }

  lemma StoreSound(p: Program, completed: bool, s: State, k: nat, addr: Node, value: Node, a: Value, v: Value)
    requires Sound(p, completed, s) && Does(p, s, k, Store(addr, value))
    requires Holds(s.frames[k], addr, a) && Holds(s.frames[k], value, v)
    ensures Sound(p, completed, s.(mem := s.mem[a := Cell(s, a) + {v}]))
  {
    hide Derives;
    var s' := s.(mem := s.mem[a := Cell(s, a) + {v}]);
    StoredValueReferenced(p, completed, s, k, addr, value, a, v);
    StoreCells(p, completed, s, a, v);
    forall i | i in s'.frames ensures FrameOk(p, completed, s', i) {
      assert FrameOk(p, completed, s, i);
    }
  }

  lemma {:induction false} PathReferenced(p: Program, completed: bool, s: State, path: seq<Value>, i: nat)
    requires Sound(p, completed, s) && Chases(s, path) && IsReferenced(p, completed, path[0]) && i < |path|
    ensures IsReferenced(p, completed, path[i])
  {
    if i > 0 {
      PathReferenced(p, completed, s, path, i - 1);
      assert CellOk(p, completed, s, path[i - 1]);
    }
  }

  lemma EnterSound(p: Program, completed: bool, s: State, k: nat, cs: Node, callee: Node, g: nat, j: nat)
    requires WellFormed(p) && Sound(p, completed, s)
    requires Does(p, s, k, Call(cs, callee)) && Holds(s.frames[k], callee, Address(g))
    ensures Sound(p, completed, Activate(s, j, Frame(g, map[], CalledAt(k, cs)), cs))
  {
    assert FrameOk(p, completed, s, k);
    var f := s.frames[k].fn;
    assert Has(p, f, Call(cs, callee));
    if callee.Local? {
      ValueReferenced(p, completed, s, k, callee, Address(g));
    }
    CalleeReached(p, completed, f, cs, callee, g);
    ActivateSound(p, completed, s, j, Frame(g, map[], CalledAt(k, cs)), cs);
  }

  lemma SpawnSound(p: Program, completed: bool, s: State, step: Step, s': State)
    requires WellFormed(p) && Sound(p, completed, s) && step.Spawn? && Steps(p, s, step, s')
    ensures Sound(p, completed, s')
  {
    var Spawn(k, cs, starter, arg, i, path, j, env) := step;
    var f, g := s.frames[k].fn, path[|path| - 1].addr;
    assert FrameOk(p, completed, s, k);
    assert Has(p, f, ArgumentSupply(cs, arg, i)) && Has(p, f, Call(cs, starter));
    OperandReferenced(p, completed, s, k, ArgumentSupply(cs, arg, i), cs, arg, path[0]);
    forall m | 0 <= m < |path| ensures IsReferenced(p, completed, path[m]) {
      PathReferenced(p, completed, s, path, m);
    }
    CalleeReached(p, completed, f, cs, starter, g);
    ActivateSound(p, completed, s, j, Frame(g, env, NoCaller), cs);
  }

  lemma LeaveSound(p: Program, completed: bool, s: State, j: nat, value: Node, v: Value, k: nat, cs: Node)
    requires Sound(p, completed, s) && j in s.frames && k in s.frames && Holds(s.frames[j], value, v)
    requires value.Symbol? ==> Derives(p, completed, Referenced(value))
    ensures Sound(p, completed, SetLocal(s, k, cs, v).(frames := SetLocal(s, k, cs, v).frames - {j}))
  {
    assert FrameOk(p, completed, s, j);
    ValueReferenced(p, completed, s, j, value, v);
    SetLocalSound(p, completed, s, k, cs, v);
    RemoveSound(p, completed, SetLocal(s, k, cs, v), j);
  }

  /** If the step returns a symbol directly, the symbol is referenced. */
  ghost predicate ReturnOk(p: Program, completed: bool, step: Step) {
    step.Leave? && step.value.Symbol? ==> Derives(p, completed, Referenced(step.value))
  }

  /** The completed rules see to that. */
  lemma CompletedReturnOk(p: Program, s: State, step: Step, s': State)
    requires Sound(p, true, s) && Steps(p, s, step, s')
    ensures ReturnOk(p, true, step)
  {
    if step.Leave? && step.value.Symbol? {
      assert FrameOk(p, true, s, step.j);
      SymbolReturned(p, s.frames[step.j].fn, step.value);
    }
  }

  /** By either set of rules, every step keeps soundness, except for returning a symbol that is not referenced. */
  lemma StepKeepsSound(p: Program, completed: bool, s: State, step: Step, s': State)
    requires WellFormed(p) && Sound(p, completed, s) && Steps(p, s, step, s') && ReturnOk(p, completed, step)
    ensures Sound(p, completed, s')
  {
    match step
    case Copy(k, to, from, v) =>
      assert EdgeOk(s.frames[k].fn, Assign(to, from));
      OperandReferenced(p, completed, s, k, Assign(to, from), to, from, v);
      SetLocalSound(p, completed, s, k, to, v);
    case LoadFrom(k, into, addr, a, v) =>
      assert EdgeOk(s.frames[k].fn, Load(into, addr));
      OperandReferenced(p, completed, s, k, Load(into, addr), into, addr, a);
      assert CellOk(p, completed, s, a);
      SetLocalSound(p, completed, s, k, into, v);
    case StoreTo(k, addr, value, a, v) =>
      StoreSound(p, completed, s, k, addr, value, a, v);
    case Allocate(k, local, id) =>
      SetLocalSound(p, completed, s, k, local, Object(id));
    case Enter(k, cs, callee, g, j) =>
      EnterSound(p, completed, s, k, cs, callee, g, j);
    case Pass(j, arg, i, x, v) =>
      var CalledAt(k, cs) := s.frames[j].caller;
      assert EdgeOk(s.frames[k].fn, ArgumentSupply(cs, arg, i));
      OperandReferenced(p, completed, s, k, ArgumentSupply(cs, arg, i), cs, arg, v);
      SetLocalSound(p, completed, s, j, x, v);
    case Leave(j, value, v) =>
      LeaveSound(p, completed, s, j, value, v, s.frames[j].caller.frame, s.frames[j].caller.callsite);
    case LeaveVoid(j) =>
      RemoveSound(p, completed, s, j);
    case Spawn(_, _, _, _, _, _, _, _) =>
      SpawnSound(p, completed, s, step, s');
  }

  // ---------------------------------------------------------------------------------------
  // Runs
  // ---------------------------------------------------------------------------------------

  lemma {:induction false} InitialiserDerived(p: Program, completed: bool, d: nat, path: seq<Node>, i: nat)
    requires path != [] && Store(Symbol(d), path[0]) in p.globals && i < |path|
    requires forall j | 0 < j < |path| :: Assign(path[j - 1], path[j]) in p.globals
    ensures Derives(p, completed, GlobalStore(Symbol(d), path[i]))
  {
    if i > 0 {
      InitialiserDerived(p, completed, d, path, i - 1);
      assert Derives(p, completed, GlobalAssign(path[i - 1], path[i]));
    }
  }

  lemma InitialSound(p: Program, completed: bool, s: State)
    requires Initial(p, s)
    ensures Sound(p, completed, s)
  {
    forall a ensures CellOk(p, completed, s, a) {
      if IsReferenced(p, completed, a) {
        forall v | v in Cell(s, a) ensures IsReferenced(p, completed, v) {
          assert Initialised(p, a, v);
          var path :| Initialises(p, Symbol(a.addr), path, Symbol(v.addr));
          InitialiserDerived(p, completed, a.addr, path, |path| - 1);
          assert Derives(p, completed, Stored(Symbol(a.addr), Symbol(v.addr)));
        }
      }
    }
  }

  ghost predicate IsRun(p: Program, tr: seq<State>, steps: seq<Step>) {
    && |tr| == |steps| + 1
    && Initial(p, tr[0])
    && forall i | 0 <= i < |steps| :: StepOk(p, tr, steps, i)
  }

  ghost predicate StepOk(p: Program, tr: seq<State>, steps: seq<Step>, i: nat)
    requires |tr| == |steps| + 1
  {
    i < |steps| && Steps(p, tr[i], steps[i], tr[i + 1])
  }

  lemma {:induction false} RunSound(p: Program, completed: bool, tr: seq<State>, steps: seq<Step>, i: nat)
    requires WellFormed(p) && IsRun(p, tr, steps) && i < |tr|
    requires completed || forall j | 0 <= j < i :: ReturnOk(p, completed, steps[j])
    ensures Sound(p, completed, tr[i])
  {
    if i == 0 {
      InitialSound(p, completed, tr[0]);
    } else {
      RunSound(p, completed, tr, steps, i - 1);
      assert StepOk(p, tr, steps, i - 1);
      if completed {
        CompletedReturnOk(p, tr[i - 1], steps[i - 1], tr[i]);
      }
      StepKeepsSound(p, completed, tr[i - 1], steps[i - 1], tr[i]);
    }
  }

  /** What the analysis claims about one state of a run. */
  ghost predicate Covered(p: Program, completed: bool, s: State) {
    && (forall g | g in s.activated :: Derives(p, completed, Reachable(Symbol(g))))
    && (forall cs, g | (cs, g) in s.called :: exists kind :: Derives(p, completed, CallGraph(cs, Symbol(g), kind)))
    && (forall k, n, g | k in s.frames && n in s.frames[k].env && s.frames[k].env[n] == Address(g) ::
          Derives(p, completed, Referenced(Symbol(g))))
  }

  lemma SoundIsCovered(p: Program, completed: bool, s: State)
    requires Sound(p, completed, s)
    ensures Covered(p, completed, s)
  {
    forall cs, g | (cs, g) in s.called ensures exists kind :: Derives(p, completed, CallGraph(cs, Symbol(g), kind)) {
      assert InCallGraph(p, completed, (cs, g).0, (cs, g).1);
    }
    forall k, n, g | k in s.frames && n in s.frames[k].env && s.frames[k].env[n] == Address(g)
      ensures Derives(p, completed, Referenced(Symbol(g)))
    {
      assert FrameOk(p, completed, s, k) && IsReferenced(p, completed, s.frames[k].env[n]);
    }
  }

  /** The completed rules are sound for every program. */
  lemma CompletedRulesAreSound(p: Program, tr: seq<State>, steps: seq<Step>, i: nat)
    requires WellFormed(p) && IsRun(p, tr, steps) && i < |tr|
    ensures Covered(p, true, tr[i])
  {
    RunSound(p, true, tr, steps, i);
    SoundIsCovered(p, true, tr[i]);
  }

  // ---------------------------------------------------------------------------------------
  // When the analysis itself is sound
  // ---------------------------------------------------------------------------------------

  /** Whatever the run activates, calls or holds, the analysis has found. */
  ghost predicate RunCovered(p: Program, tr: seq<State>) {
    forall i | 0 <= i < |tr| :: Covered(p, false, tr[i])
  }

  /** Every symbol that the run returns directly is found to be referenced. */
  ghost predicate ReturnsReferenced(p: Program, steps: seq<Step>) {
    forall j | 0 <= j < |steps| :: ReturnOk(p, false, steps[j])
  }

  /** The analysis covers a run exactly when it finds the symbols that the run returns directly. */
  lemma RunCoveredIff(p: Program, tr: seq<State>, steps: seq<Step>)
    requires WellFormed(p) && IsRun(p, tr, steps)
    ensures RunCovered(p, tr) <==> ReturnsReferenced(p, steps)
  {
    if ReturnsReferenced(p, steps) {
      forall i | 0 <= i < |tr| ensures Covered(p, false, tr[i]) {
        RunSound(p, false, tr, steps, i);
        SoundIsCovered(p, false, tr[i]);
      }
    }
    if RunCovered(p, tr) {
      forall j | 0 <= j < |steps| ensures ReturnOk(p, false, steps[j]) {
        assert StepOk(p, tr, steps, j) && Covered(p, false, tr[j + 1]);
        ReturnedIsHeld(p, tr[j], steps[j], tr[j + 1]);
      }
    }
  }

  /** After a return, the caller holds the symbol. */
  lemma ReturnedIsHeld(p: Program, s: State, step: Step, s': State)
    requires Steps(p, s, step, s') && Covered(p, false, s')
    ensures ReturnOk(p, false, step)
  {
    if step.Leave? && step.value.Symbol? {
      var CalledAt(k, cs) := s.frames[step.j].caller;
      assert k in s'.frames && cs in s'.frames[k].env && s'.frames[k].env[cs] == Address(step.value.symbol);
    }
  }

  /** The analysis is sound for a program exactly when no run returns a symbol directly that it does not find. */
  lemma SimpleRulesAreSoundIff(p: Program)
    requires WellFormed(p)
    ensures (forall tr, steps | IsRun(p, tr, steps) :: RunCovered(p, tr))
       <==> (forall tr, steps | IsRun(p, tr, steps) :: ReturnsReferenced(p, steps))
  {
    forall tr, steps | IsRun(p, tr, steps) ensures RunCovered(p, tr) <==> ReturnsReferenced(p, steps) {
      RunCoveredIff(p, tr, steps);
    }
  }

  /** So it is enough that symbols returned directly by reachable functions are referenced some other way. */
  lemma SimpleRulesAreSound(p: Program, tr: seq<State>, steps: seq<Step>)
    requires WellFormed(p) && ReturnedSymbolsReferenced(p) && IsRun(p, tr, steps)
    ensures RunCovered(p, tr)
  {
    forall j | 0 <= j < |steps| ensures ReturnOk(p, false, steps[j]) {
      RunSound(p, true, tr, steps, j);
      assert StepOk(p, tr, steps, j);
      ReachableReturnOk(p, tr[j], steps[j], tr[j + 1]);
    }
    RunCoveredIff(p, tr, steps);
  }

  lemma CompletedIsReachable(p: Program, f: Node)
    requires ReturnedSymbolsReferenced(p) && Derives(p, true, Reachable(f))
    ensures Derives(p, false, Reachable(f))
  {
    ShippedIsCompletedIff(p);
  }

  lemma ReachableReturnOk(p: Program, s: State, step: Step, s': State)
    requires ReturnedSymbolsReferenced(p) && Sound(p, true, s) && Steps(p, s, step, s')
    ensures ReturnOk(p, false, step)
  {
    hide Derives;
    if step.Leave? && step.value.Symbol? {
      assert FrameOk(p, true, s, step.j);
      var f := Symbol(s.frames[step.j].fn);
      var e := Return(f, step.value);
      CompletedIsReachable(p, f);
      assert InCode(p, e) && Mentions(e, step.value);
      assert ReturnsSymbol(p, f, step.value);
    }
  }

  /** A condition on the edges alone: it is enough that no function returns a symbol directly. */
  lemma LocalReturnsSuffice(p: Program, tr: seq<State>, steps: seq<Step>)
    requires WellFormed(p) && IsRun(p, tr, steps)
    requires forall f, x | InCode(p, Return(f, x)) :: x.Local?
    ensures RunCovered(p, tr)
  {
    forall j | 0 <= j < |steps| ensures ReturnOk(p, false, steps[j]) {
      assert StepOk(p, tr, steps, j);
      if steps[j].Leave? {
        assert InCode(p, Return(Symbol(tr[j].frames[steps[j].j].fn), steps[j].value));
      }
    }
    RunCoveredIff(p, tr, steps);
  }

  // ---------------------------------------------------------------------------------------
  // Without the condition the analysis misses functions
  // ---------------------------------------------------------------------------------------

  /** `main` (1) calls 2 and then calls what 2 returned, which is the function 3. */
  const Example := Program(
    map[1 := {Call(Local(1, 0), Symbol(2)), Call(Local(1, 1), Local(1, 0))},
        2 := {Return(Symbol(2), Symbol(3))},
        3 := {}],
    {}, map[], {1})

  function ExampleRun(): seq<State> {
    var main := Frame(1, map[], NoCaller);
    var main' := Frame(1, map[Local(1, 0) := Address(3)], NoCaller);
    [ State(map[0 := main], map[], {1}, {}),
      State(map[0 := main, 1 := Frame(2, map[], CalledAt(0, Local(1, 0)))], map[], {1, 2}, {(Local(1, 0), 2)}),
      State(map[0 := main'], map[], {1, 2}, {(Local(1, 0), 2)}),
      State(map[0 := main', 1 := Frame(3, map[], CalledAt(0, Local(1, 1)))], map[], {1, 2, 3},
            {(Local(1, 0), 2), (Local(1, 1), 3)}) ]
  }

  function ExampleSteps(): seq<Step> {
    [ Enter(0, Local(1, 0), Symbol(2), 2, 1),
      Leave(1, Symbol(3), Address(3)),
      Enter(0, Local(1, 1), Local(1, 0), 3, 1) ]
  }

  predicate InExample(fact: Fact) {
    match fact
    case CallGraph(_, callee, _) => callee == Symbol(2)
    case Reachable(f) => f == Symbol(1) || f == Symbol(2)
    case _ => false
  }

  lemma ExampleEdges()
    ensures forall e | InCode(Example, e) ::
              e in {Call(Local(1, 0), Symbol(2)), Call(Local(1, 1), Local(1, 0)), Return(Symbol(2), Symbol(3))}
  {
    forall e | InCode(Example, e)
      ensures e in {Call(Local(1, 0), Symbol(2)), Call(Local(1, 1), Local(1, 0)), Return(Symbol(2), Symbol(3))}
    {
      var f :| Has(Example, f, e);
      assert f == 1 || f == 2 || f == 3;
    }
  }

  lemma ExampleValues()
    ensures forall f, x, y | FromValue(Example, y, x) :: !EitherIn(Example, f, x, y)
  {
    ExampleEdges();
    forall f, x, y | FromValue(Example, y, x) ensures !EitherIn(Example, f, x, y) {
      assert y == Symbol(2) && x == Symbol(3);
    }
  }

  least lemma ExampleDerives(fact: Fact)
    requires Derives(Example, false, fact)
    ensures InExample(fact)
  {
    ExampleEdges();
    ExampleValues();
    forall sub: Fact | Derives#[_k - 1](Example, false, sub) ensures InExample(sub) {
      ExampleDerives(sub);
    }
  }

  /** A symbol returned directly is missed: the run activates 3, and the analysis does not find it. */
  lemma ReturnedSymbolIsMissed()
    ensures WellFormed(Example) && IsRun(Example, ExampleRun(), ExampleSteps())
    ensures 3 in ExampleRun()[3].activated && !Derives(Example, false, Reachable(Symbol(3)))
  {
    ExampleIsRun();
    forall fact: Fact | Derives(Example, false, fact) ensures InExample(fact) {
      ExampleDerives(fact);
    }
  }

  lemma ExampleIsRun()
    ensures IsRun(Example, ExampleRun(), ExampleSteps())
  {
    hide Derives;
    var tr, steps := ExampleRun(), ExampleSteps();
    assert Steps(Example, tr[0], steps[0], tr[1]);
    assert Steps(Example, tr[1], steps[1], tr[2]);
    assert Steps(Example, tr[2], steps[2], tr[3]);
    forall i | 0 <= i < |steps| ensures StepOk(Example, tr, steps, i) {
    }
  }
}
