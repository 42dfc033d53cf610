/**
 What a query of the loaded segments answers, from the step at which it looked for a published set on, and that no
 call is ever stuck because of what the others do.
 */
module ElfQueries {
  import opened ElfSegments

  // ---------------------------------------------------------------------------------------
  // Answers
  // ---------------------------------------------------------------------------------------

  /** A query has to find what is published when it enters or, if nothing is, what is loaded then. */
  function ToFind(s: State): Snapshot {
    if s.published.Null? then s.loaded else Published(s)
  }

  /** The query for `ptr` is on its way to find the segments of `base`. */
  ghost predicate Promises(s: State, pc: Pc, ptr: nat, base: Snapshot) {
    match pc
    case Begin(_, _) => false
    case Load(call, since) => call == Ask(ptr) && base <= since
    case Scan(call, since, _) => call == Ask(ptr) && base <= since
    case Compare(call, since, _, _) => call == Ask(ptr) && base <= since
    case Swap(call, since, _, _) => call == Ask(ptr) && base <= since
    case Again(p, since) => p == ptr && base <= since
    case Answer(p, id, _) => p == ptr && id in s.sets && base <= s.sets[id]
    case Answered(p, result, _) => p == ptr && (Contains(base, ptr) ==> result)
    case Returned(_) => false
  }

  ghost predicate Asks(s: State, op: Op, ptr: nat) {
    op in s.pcs && s.pcs[op].Begin? && s.pcs[op].call == Ask(ptr) && ptr != 0xFFFF_FFFF_FFFF_FFFF
  }

  lemma EnterPromises(hash: Snapshot -> int, s: State, op: Op, ptr: nat)
    requires Inv(s) && Asks(s, op, ptr)
    ensures op in After(hash, s, Enter(op)).pcs
    ensures Promises(After(hash, s, Enter(op)), After(hash, s, Enter(op)).pcs[op], ptr, ToFind(s))
  {
    assert s.published.At? ==> WasPublished(s, s.published.id);
  }

  lemma StepPromises(hash: Snapshot -> int, s: State, l: Label, op: Op, ptr: nat, base: Snapshot)
    requires Inv(s) && NoCollision(hash) && Enabled(s, l) && NoFault(s, l)
    requires op in s.pcs && Promises(s, s.pcs[op], ptr, base)
    ensures op in After(hash, s, l).pcs && Promises(After(hash, s, l), After(hash, s, l).pcs[op], ptr, base)
  {
    var s', pc := After(hash, s, l), s.pcs[op];
    assert PcOk(s, pc);
    StepGrows(hash, s, l);
    if pc.Answer? {
      assert Kept(s, s', pc.id);
      ContainsMore(base, s.sets[pc.id], ptr);
    }
    assert s.published.At? ==> WasPublished(s, s.published.id);
  }

  lemma {:induction false} RunPromises(
      hash: Snapshot -> int, s: State, ls: seq<Label>, s': State, op: Op, ptr: nat, base: Snapshot)
    requires Inv(s) && NoCollision(hash) && Runs(hash, s, ls, s')
    requires op in s.pcs && Promises(s, s.pcs[op], ptr, base)
    ensures op in s'.pcs && Promises(s', s'.pcs[op], ptr, base)
    decreases |ls|
  {
    if ls != [] {
      StepPromises(hash, s, ls[0], op, ptr, base);
      StepKeepsInv(hash, s, ls[0]);
      RunPromises(hash, After(hash, s, ls[0]), ls[1..], s', op, ptr, base);
    }
  }

  /**
   Whatever the other calls do, a query answers true for every address in a segment that was published when it
   entered. If nothing was published then, it answers true for every address in a segment that was loaded then.
   */
  lemma QueryFinds(
      hash: Snapshot -> int, ls: seq<Label>, s: State, op: Op, ptr: nat, more: seq<Label>, s': State)
    requires NoCollision(hash) && Runs(hash, Init, ls, s) && Asks(s, op, ptr)
    requires Runs(hash, After(hash, s, Enter(op)), more, s') && op in s'.pcs && s'.pcs[op].Answered?
    ensures s'.pcs[op].ptr == ptr
    ensures forall segment: Segment | segment.base <= ptr < segment.end ::
      segment in (if s.published.Null? then s.loaded else Published(s)) ==> s'.pcs[op].result
    ensures s'.pcs[op].result ==> exists segment :: segment in s'.loaded && segment.base <= ptr < segment.end
  {
    InitInv();
    RunKeepsInv(hash, Init, ls, s);
    EnterPromises(hash, s, op, ptr);
    StepKeepsInv(hash, s, Enter(op));
    RunPromises(hash, After(hash, s, Enter(op)), more, s', op, ptr, ToFind(s));
    RunKeepsInv(hash, After(hash, s, Enter(op)), more, s');
    assert PcOk(s', s'.pcs[op]);
  }

  // ---------------------------------------------------------------------------------------
  // Nothing is published twice
  // ---------------------------------------------------------------------------------------

  /** A candidate that is about to replace a set differs from it. */
  ghost predicate IsNews(s: State, pc: Pc) {
    pc.Swap? && pc.seen.At? ==> pc.id in s.sets && pc.seen.id in s.sets && s.sets[pc.id] != s.sets[pc.seen.id]
  }

  ghost predicate AllNews(s: State) {
    forall op {:trigger IsNews(s, s.pcs[op])} | op in s.pcs :: IsNews(s, s.pcs[op])
  }

  lemma StepKeepsNews(hash: Snapshot -> int, s: State, l: Label)
    requires Inv(s) && NoCollision(hash) && AllNews(s) && Enabled(s, l) && NoFault(s, l)
    ensures AllNews(After(hash, s, l))
  {
    var s' := After(hash, s, l);
    StepGrows(hash, s, l);
    forall op | op in s'.pcs ensures IsNews(s', s'.pcs[op]) {
      if op in s.pcs {
        assert IsNews(s, s.pcs[op]) && PcOk(s, s.pcs[op]);
        if op != l.op && s.pcs[op].Swap? {
          SwapStays(hash, s, l, op);
        }
      }
    }
  }

  /** The sets of a call that is about to exchange stay while other calls move. */
  lemma SwapStays(hash: Snapshot -> int, s: State, l: Label, op: Op)
    requires Inv(s) && NoCollision(hash) && Enabled(s, l) && NoFault(s, l)
    requires op in s.pcs && s.pcs[op].Swap? && op != l.op
    ensures
      var s', pc := After(hash, s, l), s.pcs[op];
      && pc.id in s.sets && pc.id in s'.sets && s'.sets[pc.id] == s.sets[pc.id]
      && (pc.seen.At? ==>
            pc.seen.id in s.sets && pc.seen.id in s'.sets && s'.sets[pc.seen.id] == s.sets[pc.seen.id])
  {
    var s', pc := After(hash, s, l), s.pcs[op];
    assert PcOk(s, pc);
    StepGrows(hash, s, l);
    assert pc.seen.At? ==> Kept(s, s', pc.seen.id);
    if l.op in s.pcs {
      assert Apart(s, op, l.op) && PcOk(s, s.pcs[l.op]);
    }
  }

  lemma {:induction false} RunKeepsNews(hash: Snapshot -> int, s: State, ls: seq<Label>, s': State)
    requires Inv(s) && NoCollision(hash) && AllNews(s) && Runs(hash, s, ls, s')
    ensures AllNews(s')
    decreases |ls|
  {
    if ls != [] {
      StepKeepsNews(hash, s, ls[0]);
      StepKeepsInv(hash, s, ls[0]);
      RunKeepsNews(hash, After(hash, s, ls[0]), ls[1..], s');
    }
  }

  /** Every set that replaces another one has more segments: memory is leaked only for news. */
  lemma PublishingIsNews(hash: Snapshot -> int, ls: seq<Label>, s: State, l: Label)
    requires NoCollision(hash) && Runs(hash, Init, ls, s) && Enabled(s, l) && NoFault(s, l)
    requires s.published.At? && After(hash, s, l).published != s.published
    ensures Published(s) < Published(After(hash, s, l))
  {
    InitInv();
    RunKeepsInv(hash, Init, ls, s);
    RunKeepsNews(hash, Init, ls, s);
    assert IsNews(s, s.pcs[l.op]) && PcOk(s, s.pcs[l.op]);
    StepGrows(hash, s, l);
  }

  // ---------------------------------------------------------------------------------------
  // A call on its own gets on
  // ---------------------------------------------------------------------------------------

  predicate IsOver(pc: Pc) {
    pc.Answered? || pc.Returned?
  }

  /** Queries end with an answer, and the other calls return. */
  predicate IsQuery(pc: Pc) {
    if pc.Begin? || pc.Load? || pc.Scan? || pc.Compare? || pc.Swap? then pc.call.Ask? else !pc.Returned?
  }

  /** How many steps a call needs at most if the others pause. */
  function StepsLeft(s: State, pc: Pc): nat {
    match pc
    case Begin(_, _) => 7
    case Load(_, _) => 6
    case Scan(_, _, seen) => if seen == s.published then 5 else 8
    case Compare(_, _, seen, _) => if seen == s.published then 4 else 7
    case Swap(_, _, seen, _) => if seen == s.published then 3 else 6
    case Again(_, _) => 2
    case Answer(_, _, _) => 1
    case Answered(_, _, _) => 0
    case Returned(_) => 0
  }

  /** The next step of a call; a scan takes the memory `id`. */
  function NextStep(op: Op, pc: Pc, id: nat): Label
    requires !IsOver(pc)
  {
    match pc
    case Begin(_, _) => Enter(op)
    case Load(_, _) => LoadSeen(op)
    case Scan(_, _, _) => ScanLoaded(op, id)
    case Compare(_, _, _, _) => CompareHash(op)
    case Swap(_, _, _, _) => Exchange(op)
    case Again(_, _) => LoadAgain(op)
    case Answer(_, _, _) => Find(op)
  }

  lemma NextStepGetsOn(hash: Snapshot -> int, s: State, op: Op, id: nat)
    requires Inv(s) && op in s.pcs && !IsOver(s.pcs[op])
    requires s.pcs[op].Scan? ==> id !in s.sets
    ensures
      var l := NextStep(op, s.pcs[op], id);
      && Enabled(s, l) && NoFault(s, l) && op in After(hash, s, l).pcs
      && StepsLeft(After(hash, s, l), After(hash, s, l).pcs[op]) < StepsLeft(s, s.pcs[op])
      && IsQuery(After(hash, s, l).pcs[op]) == IsQuery(s.pcs[op])
  {
    NeverFaults(s, NextStep(op, s.pcs[op], id));
  }

  /** Memory that a later scan of the call can take. */
  function MemoryFor(pc: Pc, id: nat): nat {
    if pc.Compare? || pc.Swap? then pc.id else id
  }

  ghost predicate HasMemory(s: State, pc: Pc, id: nat) {
    MemoryFor(pc, id) in s.sets ==> pc.Compare? || pc.Swap?
  }

  ghost predicate OnlyOf(ls: seq<Label>, op: Op) {
    forall l | l in ls :: l.op == op
  }

  /** From any reachable state, a call that runs on its own for a while comes to its end within eight steps. */
  lemma {:induction false} AloneItEnds(hash: Snapshot -> int, s: State, op: Op, id: nat)
      returns (ls: seq<Label>, s': State)
    requires Inv(s) && NoCollision(hash) && op in s.pcs
    requires HasMemory(s, s.pcs[op], id) || s.pcs[op].Again? || s.pcs[op].Answer? || IsOver(s.pcs[op])
    ensures Runs(hash, s, ls, s') && OnlyOf(ls, op) && |ls| <= StepsLeft(s, s.pcs[op]) <= 8
    ensures op in s'.pcs && if IsQuery(s.pcs[op]) then s'.pcs[op].Answered? else s'.pcs[op].Returned?
    decreases StepsLeft(s, s.pcs[op])
  {
    if IsOver(s.pcs[op]) {
      ls, s' := [], s;
    } else {
      var l := NextStep(op, s.pcs[op], id);
      NextStepGetsOn(hash, s, op, id);
      StepKeepsInv(hash, s, l);
      var next := After(hash, s, l);
      var rest;
      rest, s' := AloneItEnds(hash, next, op, MemoryFor(s.pcs[op], id));
      ls := [l] + rest;
      assert ls[1..] == rest;
    }
  }
}
