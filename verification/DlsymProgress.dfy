/**
 No insertion is ever stuck because of what the others do: from any reachable state, an insertion that runs on
 its own for a while comes to its end. Together with `FailedExchangeMeansProgress` this is what lock-freedom means.
 */
module DlsymProgress {
  import opened DlsymPages
  import opened DlsymRuns

  /** The steps `ls`, all of them of `op`, lead from `s` to `s'`. */
  ghost predicate RunsAlone(sym: Op -> Symbol, s: State, op: Op, ls: seq<Label>, s': State)
    decreases |ls|
  {
    if ls == [] then s' == s
    else
      && ls[0].op == op && Enabled(s, ls[0]) && NoFault(s, ls[0])
      && RunsAlone(sym, After(sym, s, ls[0]), op, ls[1..], s')
  }

  predicate HasRoom(s: State, p: Addr) {
    p in s.mem && s.mem[p].count < CAPACITY
  }

  /** How many steps an insertion needs at most if the others pause. */
  function StepsLeft(s: State, pc: Pc): nat {
    match pc
    case Start => 6
    case Loop(p) =>
      if p == NULL then (if s.dst == p then 4 else 8)
      else if HasRoom(s, p) then 2
      else if s.dst == p then 5 else 9
    case Store(_, _) => 1
    case Full(p) => if s.dst == p then 4 else 8
    case Exchange(p, _) => if s.dst == p then 3 else 7
    case Unmap(_, expected) => if s.dst == expected then 6 else 10
    case Done(_, _) => 0
  }

  /** The next step of an insertion; a new page is mapped at `a`. */
  function NextStep(op: Op, pc: Pc, a: Addr): Label
    requires !pc.Done?
  {
    match pc
    case Start => DoLoad(op)
    case Loop(p) => if p == NULL then DoMap(op, a) else DoFetchAdd(op)
    case Store(_, _) => DoStore(op)
    case Full(_) => DoMap(op, a)
    case Exchange(_, _) => DoExchange(op)
    case Unmap(_, _) => DoUnmap(op)
  }

  /** The address that a later `mmap` of the insertion can return: its own page, once it has unmapped it. */
  function MemoryFor(pc: Pc, a: Addr): Addr {
    if pc.Exchange? || pc.Unmap? then pc.mapped else a
  }

  /** If the insertion needs another page, there is memory for it. */
  predicate HasMemory(s: State, pc: Pc, a: Addr) {
    match pc
    case Store(_, _) => true
    case Done(_, _) => true
    case Exchange(_, mapped) => mapped != NULL
    case Unmap(mapped, _) => mapped != NULL
    case Loop(p) => HasRoom(s, p) || (a != NULL && a !in s.mem)
    case _ => a != NULL && a !in s.mem
  }

  /** The next step can be done, and leaves fewer to do. */
  ghost predicate GetsOn(sym: Op -> Symbol, s: State, op: Op, a: Addr)
    requires op in s.pcs && !s.pcs[op].Done?
  {
    var l := NextStep(op, s.pcs[op], a);
    && l.op == op && Enabled(s, l) && NoFault(s, l)
    && var s' := After(sym, s, l);
       op in s'.pcs && StepsLeft(s', s'.pcs[op]) < StepsLeft(s, s.pcs[op])
       && HasMemory(s', s'.pcs[op], MemoryFor(s.pcs[op], a))
  }

  lemma NextStepGetsOn(sym: Op -> Symbol, s: State, op: Op, a: Addr)
    requires Inv(sym, s) && op in s.pcs && !s.pcs[op].Done? && HasMemory(s, s.pcs[op], a)
    ensures GetsOn(sym, s, op, a)
  {
    hide PagesOk, HoldersOk, HasMemory, StepsLeft, GetsOn, Linked;
    HeadIsNull(s);
    NothingAtNull(sym, s);
    NeverFaults(sym, s, NextStep(op, s.pcs[op], a)) by {
      NextIsEnabled(s, op, a);
    }
    assert OpOk(s, op);
    match s.pcs[op]
    case Start => StartGetsOn(sym, s, op, a);
    case Loop(p) =>
      if p == NULL {
        MapGetsOn(sym, s, op, a);
      } else {
        AddGetsOn(sym, s, op, a);
      }
    case Store(_, _) => StoreGetsOn(sym, s, op, a);
    case Full(_) => MapGetsOn(sym, s, op, a);
    case Exchange(_, _) => ExchangeGetsOn(sym, s, op, a);
    case Unmap(_, _) => UnmapGetsOn(sym, s, op, a);
  }

  lemma NothingAtNull(sym: Op -> Symbol, s: State)
    requires PagesOk(sym, s)
    ensures NULL !in s.mem
  {
    assert NULL in s.mem ==> PageOk(sym, s, NULL);
  }

  lemma NextIsEnabled(s: State, op: Op, a: Addr)
    requires op in s.pcs && !s.pcs[op].Done? && HasMemory(s, s.pcs[op], a)
    requires s.pcs[op] == Loop(NULL) ==> !HasRoom(s, NULL)
    ensures Enabled(s, NextStep(op, s.pcs[op], a))
  {
  }

  lemma StartGetsOn(sym: Op -> Symbol, s: State, op: Op, a: Addr)
    requires op in s.pcs && s.pcs[op].Start? && HasMemory(s, s.pcs[op], a)
    ensures GetsOn(sym, s, op, a)
  {
  }

  lemma MapGetsOn(sym: Op -> Symbol, s: State, op: Op, a: Addr)
    requires op in s.pcs && (s.pcs[op].Full? || s.pcs[op] == Loop(NULL)) && HasMemory(s, s.pcs[op], a)
    requires !HasRoom(s, NULL)
    ensures GetsOn(sym, s, op, a)
  {
  }

  lemma AddGetsOn(sym: Op -> Symbol, s: State, op: Op, a: Addr)
    requires op in s.pcs && s.pcs[op].Loop? && s.pcs[op].page != NULL && HasMemory(s, s.pcs[op], a)
    requires NoFault(s, DoFetchAdd(op))
    ensures GetsOn(sym, s, op, a)
  {
  }

  lemma StoreGetsOn(sym: Op -> Symbol, s: State, op: Op, a: Addr)
    requires op in s.pcs && s.pcs[op].Store? && NoFault(s, DoStore(op))
    ensures GetsOn(sym, s, op, a)
  {
  }

  lemma ExchangeGetsOn(sym: Op -> Symbol, s: State, op: Op, a: Addr)
    requires op in s.pcs && s.pcs[op].Exchange? && Private(s, s.pcs[op].mapped) && s.pcs[op].mapped != NULL
    ensures GetsOn(sym, s, op, a)
  {
  }

  lemma UnmapGetsOn(sym: Op -> Symbol, s: State, op: Op, a: Addr)
    requires op in s.pcs && s.pcs[op].Unmap? && Private(s, s.pcs[op].mapped) && s.pcs[op].mapped != NULL
    requires s.dst != NULL ==> s.dst in s.published
    ensures GetsOn(sym, s, op, a)
  {
  }

  lemma HeadIsNull(s: State)
    requires Linked(s)
    ensures s.dst == NULL <==> s.published == []
    ensures s.dst != NULL ==> s.dst in s.published
  {
  }

  /** From any reachable state, an insertion on its own is complete within ten steps, and its symbol recorded. */
  lemma {:induction false} AloneItCompletes(sym: Op -> Symbol, s: State, op: Op, a: Addr)
      returns (ls: seq<Label>, s': State)
    requires Inv(sym, s) && op in s.pcs && HasMemory(s, s.pcs[op], a)
    ensures RunsAlone(sym, s, op, ls, s') && |ls| <= StepsLeft(s, s.pcs[op]) <= 10
    ensures op in s'.pcs && s'.pcs[op].Done? && Recorded(sym, s', op, s'.pcs[op].page, s'.pcs[op].idx)
    decreases StepsLeft(s, s.pcs[op])
  {
    hide Inv, HasMemory, Recorded;
    if s.pcs[op].Done? {
      ls, s' := [], s;
      DoneIsRecorded(sym, s, op, s.pcs[op].page, s.pcs[op].idx);
    } else {
      var l := NextStep(op, s.pcs[op], a);
      NextStepGetsOn(sym, s, op, a);
      StepKeepsInv(sym, s, l);
      var rest;
      rest, s' := AloneItCompletes(sym, After(sym, s, l), op, MemoryFor(s.pcs[op], a));
      ls := [l] + rest;
      assert ls[1..] == rest;
    }
  }
}
