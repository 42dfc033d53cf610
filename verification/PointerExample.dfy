/** A run with every kind of step of the pointer machine but allocations: the machine is not sound for lack of steps. */
module PointerExample {
  import opened EdgeEncoding
  import opened PointerMachine
  import opened SimpleRules

  /**
   `main` (1) stores the address of 3 in a global (7), loads it again, passes it to 2, which returns it, and calls
   what comes back. Then it starts a thread that runs 4; `pthread_create` has the symbol 9.
   */
  const Flow := Program(
    map[1 := {Assign(Local(1, 0), Symbol(3)), Store(Symbol(7), Local(1, 0)), Load(Local(1, 1), Symbol(7)),
              Call(Local(1, 2), Symbol(2)), ArgumentSupply(Local(1, 2), Local(1, 1), 0),
              Call(Local(1, 3), Local(1, 2)),
              Call(Local(1, 4), Symbol(9)), ArgumentSupply(Local(1, 4), Symbol(4), 2)},
        2 := {ArgumentDefinition(Local(2, 0), Symbol(2), 0), Return(Symbol(2), Local(2, 0))},
        3 := {},
        4 := {}],
    {}, map[9 := "pthread_create"], {1})

  ghost predicate RunsTo(tr: seq<State>, steps: seq<Step>, s: State) {
    IsRun(Flow, tr, steps) && tr[|steps|] == s
  }

  lemma OneStep(tr: seq<State>, steps: seq<Step>, s: State, step: Step, s': State)
    requires RunsTo(tr, steps, s) && Steps(Flow, s, step, s')
    ensures RunsTo(tr + [s'], steps + [step], s')
  {
    hide Steps;
    var tr', steps' := tr + [s'], steps + [step];
    forall j | 0 <= j < |steps'| ensures StepOk(Flow, tr', steps', j) {
      assert j < |steps| ==> StepOk(Flow, tr, steps, j);
    }
  }

  ghost predicate Happens(s: State, step: Step, s': State) {
    Steps(Flow, s, step, s')
  }

  /** The run so far, one step after the other. */
  lemma NextStep(tr: seq<State>, steps: seq<Step>, s: State, step: Step, s': State)
      returns (tr': seq<State>, steps': seq<Step>)
    requires RunsTo(tr, steps, s) && Happens(s, step, s')
    ensures RunsTo(tr', steps', s')
  {
    OneStep(tr, steps, s, step, s');
    tr', steps' := tr + [s'], steps + [step];
  }

  const Cells: map<Value, set<Value>> := map[Address(7) := {Address(3)}]

  /** `main` in frame 0, with these values of its locals. */
  function InMain(
      env: map<Node, Value>, mem: map<Value, set<Value>>, activated: set<nat>, called: set<(Node, nat)>): State
  {
    State(map[0 := Frame(1, env, NoCaller)], mem, activated, called)
  }

  /** `main` has called 2, which has these values of its locals. */
  function InTwo(env: map<Node, Value>): State {
    State(
      map[0 := Frame(1, Loaded(), NoCaller), 1 := Frame(2, env, CalledAt(0, Local(1, 2)))],
      Cells, {1, 2}, {(Local(1, 2), 2)})
  }

  function Loaded(): map<Node, Value> {
    map[Local(1, 0) := Address(3), Local(1, 1) := Address(3)]
  }

  function Returned(): map<Node, Value> {
    map[Local(1, 0) := Address(3), Local(1, 1) := Address(3), Local(1, 2) := Address(3)]
  }

  lemma CopyHappens()
    ensures Happens(
      InMain(map[], map[], {1}, {}), Copy(0, Local(1, 0), Symbol(3), Address(3)),
      InMain(map[Local(1, 0) := Address(3)], map[], {1}, {}))
  {
  }

  lemma StoreHappens()
    ensures Happens(
      InMain(map[Local(1, 0) := Address(3)], map[], {1}, {}),
      StoreTo(0, Symbol(7), Local(1, 0), Address(7), Address(3)),
      InMain(map[Local(1, 0) := Address(3)], Cells, {1}, {}))
  {
    var s := InMain(map[Local(1, 0) := Address(3)], map[], {1}, {});
    assert Cell(s, Address(7)) + {Address(3)} == {Address(3)};
  }

  lemma LoadHappens()
    ensures Happens(
      InMain(map[Local(1, 0) := Address(3)], Cells, {1}, {}),
      LoadFrom(0, Local(1, 1), Symbol(7), Address(7), Address(3)),
      InMain(Loaded(), Cells, {1}, {}))
  {
  }

  lemma EnterHappens()
    ensures Happens(
      InMain(Loaded(), Cells, {1}, {}), Enter(0, Local(1, 2), Symbol(2), 2, 1), InTwo(map[]))
  {
    assert {1} + {2} == {1, 2};
  }

  lemma PassHappens()
    ensures Happens(
      InTwo(map[]), Pass(1, Local(1, 1), 0, Local(2, 0), Address(3)), InTwo(map[Local(2, 0) := Address(3)]))
  {
  }

  lemma LeaveHappens()
    ensures Happens(
      InTwo(map[Local(2, 0) := Address(3)]), Leave(1, Local(2, 0), Address(3)),
      InMain(Returned(), Cells, {1, 2}, {(Local(1, 2), 2)}))
  {
    var s := InTwo(map[Local(2, 0) := Address(3)]);
    assert SetLocal(s, 0, Local(1, 2), Address(3)).frames - {1} == map[0 := Frame(1, Returned(), NoCaller)];
  }

  /** `main` has called 3 through the pointer. */
  function InThree(): State {
    State(
      map[0 := Frame(1, Returned(), NoCaller), 1 := Frame(3, map[], CalledAt(0, Local(1, 3)))],
      Cells, {1, 2, 3}, {(Local(1, 2), 2), (Local(1, 3), 3)})
  }

  lemma EnterPointerHappens()
    ensures Happens(
      InMain(Returned(), Cells, {1, 2}, {(Local(1, 2), 2)}), Enter(0, Local(1, 3), Local(1, 2), 3, 1), InThree())
  {
    assert {1, 2} + {3} == {1, 2, 3};
    assert {(Local(1, 2), 2)} + {(Local(1, 3), 3)} == {(Local(1, 2), 2), (Local(1, 3), 3)};
  }

  function BackInMain(): State {
    InMain(Returned(), Cells, {1, 2, 3}, {(Local(1, 2), 2), (Local(1, 3), 3)})
  }

  lemma LeaveVoidHappens()
    ensures Happens(InThree(), LeaveVoid(1), BackInMain())
  {
    assert InThree().frames - {1} == map[0 := Frame(1, Returned(), NoCaller)];
  }

  /** A thread runs 4; it has no caller. */
  function WithThread(): State {
    State(
      map[0 := Frame(1, Returned(), NoCaller), 1 := Frame(4, map[], NoCaller)],
      Cells, {1, 2, 3, 4}, {(Local(1, 2), 2), (Local(1, 3), 3), (Local(1, 4), 4)})
  }

  lemma SpawnHappens()
    ensures Happens(
      BackInMain(), Spawn(0, Local(1, 4), Symbol(9), Symbol(4), 2, [Address(4)], 1, map[]), WithThread())
  {
    assert {1, 2, 3} + {4} == {1, 2, 3, 4};
    assert {(Local(1, 2), 2), (Local(1, 3), 3)} + {(Local(1, 4), 4)}
        == {(Local(1, 2), 2), (Local(1, 3), 3), (Local(1, 4), 4)};
  }

  /** The values flow as the edges say: the run activates 3 through the pointer, and 4 as a thread. */
  lemma ValuesFlow() returns (tr: seq<State>, steps: seq<Step>)
    ensures IsRun(Flow, tr, steps) && tr[|steps|].activated == {1, 2, 3, 4}
  {
    hide Happens, RunsTo, InMain, InTwo, Loaded, Returned, InThree, BackInMain;
    var l0, l1, l2 := Local(1, 0), Local(1, 1), Local(1, 2);
    FirstState();
    tr, steps := [InMain(map[], map[], {1}, {})], [];
    CopyHappens();
    var copied := InMain(map[l0 := Address(3)], map[], {1}, {});
    tr, steps := NextStep(tr, steps, tr[0], Copy(0, l0, Symbol(3), Address(3)), copied);
    StoreHappens();
    var stored := InMain(map[l0 := Address(3)], Cells, {1}, {});
    tr, steps := NextStep(tr, steps, copied, StoreTo(0, Symbol(7), l0, Address(7), Address(3)), stored);
    LoadHappens();
    var loaded := InMain(Loaded(), Cells, {1}, {});
    tr, steps := NextStep(tr, steps, stored, LoadFrom(0, l1, Symbol(7), Address(7), Address(3)), loaded);
    EnterHappens();
    tr, steps := NextStep(tr, steps, loaded, Enter(0, l2, Symbol(2), 2, 1), InTwo(map[]));
    PassHappens();
    var passed := InTwo(map[Local(2, 0) := Address(3)]);
    tr, steps := NextStep(tr, steps, InTwo(map[]), Pass(1, l1, 0, Local(2, 0), Address(3)), passed);
    LeaveHappens();
    var returned := InMain(Returned(), Cells, {1, 2}, {(l2, 2)});
    tr, steps := NextStep(tr, steps, passed, Leave(1, Local(2, 0), Address(3)), returned);
    EnterPointerHappens();
    tr, steps := NextStep(tr, steps, returned, Enter(0, Local(1, 3), l2, 3, 1), InThree());
    LeaveVoidHappens();
    tr, steps := NextStep(tr, steps, InThree(), LeaveVoid(1), BackInMain());
    SpawnHappens();
    var spawn := Spawn(0, Local(1, 4), Symbol(9), Symbol(4), 2, [Address(4)], 1, map[]);
    tr, steps := NextStep(tr, steps, BackInMain(), spawn, WithThread());
    LastState(tr, steps);
  }

  lemma FirstState()
    ensures RunsTo([InMain(map[], map[], {1}, {})], [], InMain(map[], map[], {1}, {}))
  {
  }

  lemma LastState(tr: seq<State>, steps: seq<Step>)
    requires RunsTo(tr, steps, WithThread())
    ensures IsRun(Flow, tr, steps) && tr[|steps|].activated == {1, 2, 3, 4}
  {
  }
}
