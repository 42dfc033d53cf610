/**
 What holds over whole runs of the dlsym page list, for any number of operations in any
 interleaving, and what the later walk over the pages reads.
 */
module DlsymRuns {
  import opened DlsymPages
  import opened Sequences

  predicate Steps(sym: Op -> Symbol, s: State, l: Label, s': State) {
    Enabled(s, l) && NoFault(s, l) && s' == After(sym, s, l)
  }

  /** `tr` are the states of a run and `ls` its steps. By `StepKeepsInv`, `NoFault` excludes no run. */
  ghost predicate IsRun(sym: Op -> Symbol, tr: seq<State>, ls: seq<Label>) {
    && |tr| == |ls| + 1
    && tr[0] == Init
    && forall i | 0 <= i < |ls| :: StepOk(sym, tr, ls, i)
  }

  /** Step `i` of the run is one of the enabled steps. */
  predicate StepOk(sym: Op -> Symbol, tr: seq<State>, ls: seq<Label>, i: nat)
    requires |tr| == |ls| + 1
  {
    i < |ls| && Steps(sym, tr[i], ls[i], tr[i + 1])
  }

  lemma StepAt(sym: Op -> Symbol, tr: seq<State>, ls: seq<Label>, i: nat)
    requires IsRun(sym, tr, ls) && i < |ls|
    ensures Steps(sym, tr[i], ls[i], tr[i + 1])
  {
    assert StepOk(sym, tr, ls, i);
  }

  lemma {:induction false} RunKeepsInv(sym: Op -> Symbol, tr: seq<State>, ls: seq<Label>, i: nat)
    requires IsRun(sym, tr, ls) && i < |tr|
    ensures Inv(sym, tr[i])
  {
    if i == 0 {
      InitInv(sym);
    } else {
      RunKeepsInv(sym, tr, ls, i - 1);
      StepAt(sym, tr, ls, i - 1);
      StepKeepsInv(sym, tr[i - 1], ls[i - 1]);
    }
  }

  // ---------------------------------------------------------------------------------------
  // Nothing published is ever taken back
  // ---------------------------------------------------------------------------------------

  predicate IsSuffix(a: seq<Addr>, b: seq<Addr>) {
    |a| <= |b| && b[|b| - |a|..] == a
  }

  predicate Evolves(s: State, s': State) {
    && IsSuffix(s.published, s'.published)
    && forall op | op in s.pcs && s.pcs[op].Done? :: op in s'.pcs && s'.pcs[op] == s.pcs[op]
  }

  lemma SuffixFacts(a: seq<Addr>, x: Addr)
    ensures IsSuffix(a, a) && IsSuffix(a, [x] + a)
  {
    assert a[0..] == a && ([x] + a)[1..] == a;
  }

  lemma EvolvesTransitive(a: State, b: State, c: State)
    requires Evolves(a, b) && Evolves(b, c)
    ensures Evolves(a, c)
  {
    var p, q, r := a.published, b.published, c.published;
    assert r[|r| - |p|..] == r[|r| - |q|..][|q| - |p|..];
  }

  lemma StepEvolves(sym: Op -> Symbol, s: State, l: Label, s': State)
    requires Steps(sym, s, l, s')
    ensures Evolves(s, s')
  {
    hide IsSuffix;
    match l
    case DoExchange(op) =>
      SuffixFacts(s.published, s.pcs[op].mapped);
    case _ =>
      assert s'.published == s.published;
      SuffixFacts(s.published, NULL);
  }

  lemma {:induction false} RunEvolves(sym: Op -> Symbol, tr: seq<State>, ls: seq<Label>, i: nat, j: nat)
    requires IsRun(sym, tr, ls) && i <= j < |tr|
    ensures Evolves(tr[i], tr[j])
    decreases j
  {
    if i < j {
      RunEvolves(sym, tr, ls, i, j - 1);
      assert Evolves(tr[j - 1], tr[j]) by {
        StepAt(sym, tr, ls, j - 1);
        StepEvolves(sym, tr[j - 1], ls[j - 1], tr[j]);
      }
      EvolvesTransitive(tr[i], tr[j - 1], tr[j]);
    } else {
      SuffixFacts(tr[i].published, NULL);
    }
  }

  /** Step `m` of the run is a fetch-and-add on the counter of page `p`. */
  predicate AddsTo(tr: seq<State>, ls: seq<Label>, m: nat, p: Addr) {
    && m < |ls| && m < |tr| && ls[m].DoFetchAdd?
    && ls[m].op in tr[m].pcs && tr[m].pcs[ls[m].op] == Loop(p)
  }

  function Adds(tr: seq<State>, ls: seq<Label>, i: nat, j: nat, p: Addr): set<nat> {
    set m: nat | i <= m < j && AddsTo(tr, ls, m, p)
  }

  lemma StepCounts(sym: Op -> Symbol, s: State, l: Label, s': State, p: Addr)
    requires Steps(sym, s, l, s') && Inv(sym, s) && p in s.published
    ensures p in s.mem && p in s'.mem
    ensures var adds := l.DoFetchAdd? && s.pcs[l.op] == Loop(p);
            s'.mem[p].count == s.mem[p].count + if adds then 1 else 0
  {
    hide PagesOk, HoldersOk;
    if l.DoUnmap? {
      assert OpOk(s, l.op);
    }
  }

  lemma StaysPublished(sym: Op -> Symbol, tr: seq<State>, ls: seq<Label>, i: nat, j: nat, p: Addr)
    requires IsRun(sym, tr, ls) && i <= j < |tr| && p in tr[i].published
    ensures p in tr[j].published
  {
    RunEvolves(sym, tr, ls, i, j);
    var a, b := tr[i].published, tr[j].published;
    var k :| 0 <= k < |a| && a[k] == p;
    assert b[|b| - |a| + k] == p;
  }

  lemma OneMoreAdd(tr: seq<State>, ls: seq<Label>, i: nat, j: nat, p: Addr)
    requires i < j
    ensures |Adds(tr, ls, i, i, p)| == 0
    ensures |Adds(tr, ls, i, j, p)| == |Adds(tr, ls, i, j - 1, p)| + if AddsTo(tr, ls, j - 1, p) then 1 else 0
  {
    assert Adds(tr, ls, i, i, p) == {};
    assert Adds(tr, ls, i, j, p) == Adds(tr, ls, i, j - 1, p) + if AddsTo(tr, ls, j - 1, p) then {j - 1} else {};
  }

  /** The counter of a published page tells the fetch-and-adds on it, also those that came too late for a slot. */
  lemma {:induction false} CountIsAdds(
      sym: Op -> Symbol, tr: seq<State>, ls: seq<Label>, i: nat, j: nat, p: Addr)
    requires IsRun(sym, tr, ls) && i < j < |tr| && p in tr[i].published
    ensures p in tr[i].mem && p in tr[j].mem
    ensures tr[j].mem[p].count == tr[i].mem[p].count + |Adds(tr, ls, i, j, p)|
    decreases j
  {
    hide Inv, After, Adds;
    if i + 1 < j {
      CountIsAdds(sym, tr, ls, i, j - 1, p);
    }
    StaysPublished(sym, tr, ls, i, j - 1, p);
    RunKeepsInv(sym, tr, ls, j - 1);
    StepAt(sym, tr, ls, j - 1);
    StepCounts(sym, tr[j - 1], ls[j - 1], tr[j], p);
    OneMoreAdd(tr, ls, i, j, p);
  }

  /** The address reached from `a` by following `n` next pointers. */
  function Follow(mem: map<Addr, Page>, a: Addr, n: nat): Addr
    decreases n
  {
    if n == 0 || a !in mem then a else Follow(mem, mem[a].next, n - 1)
  }

  /** Following next pointers along a list visits its pages in order and then stops. */
  lemma {:induction false} FollowList(mem: map<Addr, Page>, pages: seq<Addr>, k: nat, n: nat)
    requires forall j | 0 <= j < |pages| :: pages[j] in mem && mem[pages[j]].next == NextOf(pages, j + 1)
    requires k + n <= |pages|
    ensures Follow(mem, NextOf(pages, k), n) == NextOf(pages, k + n)
    decreases n
  {
    if n > 0 {
      var p := pages[k];
      FollowList(mem, pages, k + 1, n - 1);
      assert Follow(mem, p, n) == Follow(mem, mem[p].next, n - 1);
    }
  }

  /** `op` has its symbol in slot `k` of page `p`, a slot of its own on a page reachable from `*Dst`. */
  ghost predicate Recorded(sym: Op -> Symbol, s: State, op: Op, p: Addr, k: nat) {
    && p in s.mem && k < Min(s.mem[p].count, CAPACITY) && k < |s.mem[p].pointers|
    && s.mem[p].pointers[k] == sym(op)
    && (exists n: nat :: n < |s.published| && Follow(s.mem, s.dst, n) == p)
    && forall o | o in s.pcs && o != op :: s.pcs[o] != Store(p, k) && s.pcs[o] != Done(p, k)
  }

  lemma DoneIsRecorded(sym: Op -> Symbol, s: State, op: Op, p: Addr, k: nat)
    requires Inv(sym, s) && op in s.pcs && s.pcs[op] == Done(p, k)
    ensures Recorded(sym, s, op, p, k)
  {
    assert OpOk(s, op);
    assert PageOk(sym, s, p) && SlotOk(sym, s, p, k);
    PublishedIsReachable(s, p);
    SlotHasOneOwner(s, op, p, k);
  }

  lemma PublishedIsReachable(s: State, p: Addr)
    requires Linked(s) && p in s.published
    ensures exists n: nat :: n < |s.published| && Follow(s.mem, s.dst, n) == p
  {
    var n :| 0 <= n < |s.published| && s.published[n] == p;
    FollowList(s.mem, s.published, 0, n);
  }

  lemma SlotHasOneOwner(s: State, op: Op, p: Addr, k: nat)
    requires OpsOk(s) && op in s.pcs && s.pcs[op] == Done(p, k)
    ensures forall o | o in s.pcs && o != op :: s.pcs[o] != Store(p, k) && s.pcs[o] != Done(p, k)
  {
    assert OpOk(s, op);
    forall o | o in s.pcs && o != op ensures s.pcs[o] != Store(p, k) && s.pcs[o] != Done(p, k) {
      assert OpOk(s, o);
    }
  }

  /**
   A completed insertion is permanent: from then on its symbol sits in a slot that no other
   operation ever reserves, below the page's count, on a page reachable from `*Dst`.
   */
  lemma CompletedInsertIsPermanent(sym: Op -> Symbol, tr: seq<State>, ls: seq<Label>, i: nat, j: nat, op: Op)
    requires IsRun(sym, tr, ls) && i <= j < |tr|
    requires op in tr[i].pcs && tr[i].pcs[op].Done?
    ensures op in tr[j].pcs && tr[j].pcs[op] == tr[i].pcs[op]
    ensures Recorded(sym, tr[j], op, tr[i].pcs[op].page, tr[i].pcs[op].idx)
  {
    RunKeepsInv(sym, tr, ls, j);
    RunEvolves(sym, tr, ls, i, j);
    DoneIsRecorded(sym, tr[j], op, tr[i].pcs[op].page, tr[i].pcs[op].idx);
  }

  /** In every reachable state the pages from `*Dst` form a finite list without repetition, full behind its head. */
  lemma ListIsFiniteAndFull(sym: Op -> Symbol, tr: seq<State>, ls: seq<Label>, i: nat)
    requires IsRun(sym, tr, ls) && i < |tr|
    ensures var s := tr[i];
            && Follow(s.mem, s.dst, |s.published|) == NULL
            && (forall m: nat, n: nat | m < n <= |s.published| :: Follow(s.mem, s.dst, m) != Follow(s.mem, s.dst, n))
            && (forall n: nat | 0 < n < |s.published| :: IsFull(s, Follow(s.mem, s.dst, n)))
  {
    RunKeepsInv(sym, tr, ls, i);
    LinkedIsFiniteAndFull(tr[i]);
  }

  lemma LinkedIsFiniteAndFull(s: State)
    requires Linked(s)
    ensures Follow(s.mem, s.dst, |s.published|) == NULL
    ensures forall m: nat, n: nat | m < n <= |s.published| :: Follow(s.mem, s.dst, m) != Follow(s.mem, s.dst, n)
    ensures forall n: nat | 0 < n < |s.published| :: IsFull(s, Follow(s.mem, s.dst, n))
  {
    forall n: nat | n <= |s.published| ensures Follow(s.mem, s.dst, n) == NextOf(s.published, n) {
      FollowList(s.mem, s.published, 0, n);
    }
  }

  /** Reading the same head twice means that nothing was published in between, whatever was unmapped and reused. */
  lemma NoAba(sym: Op -> Symbol, tr: seq<State>, ls: seq<Label>, i: nat, j: nat)
    requires IsRun(sym, tr, ls) && i <= j < |tr|
    requires tr[i].dst == tr[j].dst
    ensures tr[i].published == tr[j].published
  {
    RunKeepsInv(sym, tr, ls, i);
    RunKeepsInv(sym, tr, ls, j);
    RunEvolves(sym, tr, ls, i, j);
    var a, b := tr[i].published, tr[j].published;
    if a != [] {
      assert b[|b| - |a|] == a[0] == b[0];
    }
  }

  // ---------------------------------------------------------------------------------------
  // A failed exchange means that somebody else made progress
  // ---------------------------------------------------------------------------------------

  /** Step `m` publishes a page. */
  predicate Publishes(tr: seq<State>, ls: seq<Label>, m: nat) {
    && m < |ls| && m + 1 < |tr|
    && ls[m].DoExchange?
    && |tr[m + 1].published| == |tr[m].published| + 1
  }

  lemma {:induction false} HeadMovedByPublishing(sym: Op -> Symbol, tr: seq<State>, ls: seq<Label>, i: nat, j: nat)
      returns (m: nat)
    requires IsRun(sym, tr, ls) && i <= j < |tr| && tr[i].dst != tr[j].dst
    ensures i <= m < j && Publishes(tr, ls, m)
    decreases j
  {
    StepAt(sym, tr, ls, j - 1);
    if tr[j - 1].dst != tr[j].dst {
      m := j - 1;
    } else {
      m := HeadMovedByPublishing(sym, tr, ls, i, j - 1);
    }
  }

  /** The operation learns what is at the head: by a load, or by an exchange, whether it succeeds or not. */
  predicate ReadsHead(l: Label, op: Op) {
    l == DoLoad(op) || l == DoExchange(op)
  }

  /** The value of `*Dst` that an operation goes by. */
  function HeadSeen(pc: Pc): Addr
    requires !pc.Start?
  {
    if pc.Unmap? then pc.expected else pc.page
  }

  lemma StepKeepsHeadSeen(sym: Op -> Symbol, s: State, l: Label, s': State, op: Op)
    requires Steps(sym, s, l, s') && op in s.pcs && !s.pcs[op].Start?
    requires !ReadsHead(l, op)
    ensures op in s'.pcs && !s'.pcs[op].Start? && HeadSeen(s'.pcs[op]) == HeadSeen(s.pcs[op])
  {
  }

  lemma {:induction false} HeadSeenKept(sym: Op -> Symbol, tr: seq<State>, ls: seq<Label>, i: nat, j: nat, op: Op)
    requires IsRun(sym, tr, ls) && i < j < |tr|
    requires Enabled(tr[i], ls[i]) && ReadsHead(ls[i], op)
    requires forall m | i < m < j :: !ReadsHead(ls[m], op)
    ensures op in tr[j].pcs && !tr[j].pcs[op].Start? && HeadSeen(tr[j].pcs[op]) == tr[i + 1].dst
    decreases j
  {
    StepAt(sym, tr, ls, j - 1);
    if i + 1 < j {
      HeadSeenKept(sym, tr, ls, i, j - 1, op);
      StepKeepsHeadSeen(sym, tr[j - 1], ls[j - 1], tr[j], op);
    }
  }

  lemma StepNeedsHead(sym: Op -> Symbol, s: State, l: Label, s': State, op: Op)
    requires Steps(sym, s, l, s') && op in s'.pcs && !s'.pcs[op].Start? && !ReadsHead(l, op)
    ensures op in s.pcs && !s.pcs[op].Start?
  {
  }

  /** Every operation that has started has learned the head at some step `i`, which here is the last one. */
  lemma {:induction false} HeadWasRead(
      sym: Op -> Symbol, tr: seq<State>, ls: seq<Label>, j: nat, op: Op) returns (i: nat)
    requires IsRun(sym, tr, ls) && j < |tr| && op in tr[j].pcs && !tr[j].pcs[op].Start?
    ensures i < j && Enabled(tr[i], ls[i]) && ReadsHead(ls[i], op)
    ensures forall m | i < m < j :: !ReadsHead(ls[m], op)
    decreases j
  {
    StepAt(sym, tr, ls, j - 1);
    if ReadsHead(ls[j - 1], op) {
      i := j - 1;
    } else {
      StepNeedsHead(sym, tr[j - 1], ls[j - 1], tr[j], op);
      i := HeadWasRead(sym, tr, ls, j - 1, op);
    }
  }

  /**
   Whenever an operation fails an exchange, another operation has published a page at some step `m` since it
   last learned the head, at step `i`, possibly by publishing a page itself. So some operation always gets on.
   */
  lemma FailedExchangeMeansProgress(sym: Op -> Symbol, tr: seq<State>, ls: seq<Label>, j: nat, op: Op)
      returns (i: nat, m: nat)
    requires IsRun(sym, tr, ls) && j < |ls|
    requires ls[j] == DoExchange(op) && Enabled(tr[j], ls[j]) && tr[j].dst != tr[j].pcs[op].page
    ensures i < m < j && ReadsHead(ls[i], op) && forall n | i < n < j :: !ReadsHead(ls[n], op)
    ensures Publishes(tr, ls, m) && ls[m].op != op
  {
    i := HeadWasRead(sym, tr, ls, j, op);
    HeadSeenKept(sym, tr, ls, i, j, op);
    m := HeadMovedByPublishing(sym, tr, ls, i + 1, j);
  }

  // ---------------------------------------------------------------------------------------
  // Reading the pages back
  // ---------------------------------------------------------------------------------------

  /** The entries of the pages from number `k` on: the first min(count, 2046) slots of each. */
  function EntriesOf(mem: map<Addr, Page>, pages: seq<Addr>, k: nat): seq<Symbol>
    requires forall p | p in pages :: p in mem && |mem[p].pointers| == CAPACITY
    decreases |pages| - k
  {
    if k >= |pages| then []
    else
      var page := mem[pages[k]];
      page.pointers[..Min(page.count, CAPACITY)] + EntriesOf(mem, pages, k + 1)
  }

  /** `pages` is the list of pages starting at `first`. */
  predicate IsList(mem: map<Addr, Page>, first: Addr, pages: seq<Addr>) {
    && first == NextOf(pages, 0)
    && (forall p | p in pages :: p in mem && p != NULL && |mem[p].pointers| == CAPACITY)
    && (forall j | 0 <= j < |pages| :: mem[pages[j]].next == NextOf(pages, j + 1))
  }

  lemma NextOfAt(pages: seq<Addr>, k: nat)
    ensures NextOf(pages, k) == if k < |pages| then pages[k] else NULL
  {
  }

  /** The walk over a core dump's memory. */
  method Walk(mem: map<Addr, Page>, first: Addr, ghost pages: seq<Addr>) returns (symbols: seq<Symbol>)
    requires IsList(mem, first, pages)
    ensures symbols == EntriesOf(mem, pages, 0)
  {
    hide NextOf;
    symbols := [];
    var page := first;
    ghost var k := 0;
    while page != NULL
      invariant k <= |pages| && page == NextOf(pages, k)
      invariant symbols + EntriesOf(mem, pages, k) == EntriesOf(mem, pages, 0)
      decreases |pages| - k
    {
      NextOfAt(pages, k);
      var entries := ReadPage(mem[page]);
      Associative(symbols, entries, EntriesOf(mem, pages, k + 1));
      symbols := symbols + entries;
      page := mem[page].next;
      k := k + 1;
    }
    NextOfAt(pages, k);
    EmptyUnit(symbols);
  }

  /** One page of the walk. */
  method ReadPage(page: Page) returns (symbols: seq<Symbol>)
    requires |page.pointers| == CAPACITY
    ensures symbols == page.pointers[..Min(page.count, CAPACITY)]
  {
    symbols := [];
    for i := 0 to Min(page.count, CAPACITY)
      invariant symbols == page.pointers[..i]
    {
      symbols := symbols + [page.pointers[i]];
    }
  }

  /** The operations that own the slots of the pages from number `k` on, slot by slot. */
  function OwnersOf(owners: map<Addr, seq<Op>>, pages: seq<Addr>, k: nat): seq<Op>
    requires forall p | p in pages :: p in owners
    decreases |pages| - k
  {
    if k >= |pages| then [] else owners[pages[k]] + OwnersOf(owners, pages, k + 1)
  }

  function Reserved(s: State): set<Op> {
    set op | op in s.pcs && (s.pcs[op].Store? || s.pcs[op].Done?)
  }

  /** What the slot reserved by `op` holds. */
  function Entry(sym: Op -> Symbol, s: State, op: Op): Symbol {
    if op in s.pcs && s.pcs[op].Done? then sym(op) else 0
  }

  predicate OwnsOnOneOf(s: State, op: Op, pages: seq<Addr>) {
    op in Reserved(s) && s.pcs[op].page in pages
  }

  ghost predicate Distinct<T>(s: seq<T>) {
    forall i, j | 0 <= i < j < |s| :: s[i] != s[j]
  }

  lemma {:induction false} EntriesByOwner(sym: Op -> Symbol, s: State, pages: seq<Addr>, k: nat)
    requires KeysOk(s) && PagesOk(sym, s) && OpsOk(s) && Distinct(pages) && k <= |pages|
    requires forall p | p in pages :: p in s.mem && p in s.owners && |s.mem[p].pointers| == CAPACITY
    ensures var es, os := EntriesOf(s.mem, pages, k), OwnersOf(s.owners, pages, k);
            && |es| == |os|
            && (forall i | 0 <= i < |es| :: es[i] == Entry(sym, s, os[i]))
            && Distinct(os)
            && (forall op :: op in os <==> OwnsOnOneOf(s, op, pages[k..]))
    decreases |pages| - k
  {
    if k < |pages| {
      var p := pages[k];
      EntriesByOwner(sym, s, pages, k + 1);
      OwnersOfPage(sym, s, p);
      var os := OwnersOf(s.owners, pages, k + 1);
      assert pages[k..] == [p] + pages[k + 1..];
      assert p !in pages[k + 1..];
      DistinctConcat(s.owners[p], os);
    }
  }

  lemma DistinctConcat<T>(a: seq<T>, b: seq<T>)
    requires Distinct(a) && Distinct(b) && forall x | x in a :: x !in b
    ensures Distinct(a + b)
  {
    var c := a + b;
    forall i, j | 0 <= i < j < |c| ensures c[i] != c[j] {
      assert i < |a| ==> c[i] in a;
      assert j >= |a| ==> c[j] in b;
    }
  }

  lemma OwnersOfPage(sym: Op -> Symbol, s: State, p: Addr)
    requires KeysOk(s) && PagesOk(sym, s) && OpsOk(s) && p in s.mem
    ensures p in s.owners && |s.mem[p].pointers| == CAPACITY && |s.owners[p]| == Min(s.mem[p].count, CAPACITY)
    ensures forall i | 0 <= i < |s.owners[p]| :: s.mem[p].pointers[i] == Entry(sym, s, s.owners[p][i])
    ensures Distinct(s.owners[p])
    ensures forall op :: op in s.owners[p] <==> op in Reserved(s) && s.pcs[op].page == p
  {
    assert PageOk(sym, s, p);
    forall i | 0 <= i < |s.owners[p]|
      ensures s.mem[p].pointers[i] == Entry(sym, s, s.owners[p][i])
      ensures var op := s.owners[p][i]; op in Reserved(s) && s.pcs[op].page == p && s.pcs[op].idx == i
    {
      assert SlotOk(sym, s, p, i);
    }
    forall op | op in Reserved(s) && s.pcs[op].page == p ensures op in s.owners[p] {
      assert OpOk(s, op);
    }
  }

  /**
   At any moment of any run, the walk reads one entry per reservation: the reserver's symbol if
   its insertion is complete, and zero if it is still on its way. `owners` lists the reservers.
   */
  lemma WalkReadsReservations(sym: Op -> Symbol, tr: seq<State>, ls: seq<Label>, i: nat) returns (owners: seq<Op>)
    requires IsRun(sym, tr, ls) && i < |tr|
    ensures var s := tr[i];
            && IsList(s.mem, s.dst, s.published)
            && var es := EntriesOf(s.mem, s.published, 0);
            && |es| == |owners| == |Reserved(s)|
            && Distinct(owners) && (forall op :: op in owners <==> op in Reserved(s))
            && forall k | 0 <= k < |es| :: es[k] == Entry(sym, s, owners[k])
  {
    var s := tr[i];
    RunKeepsInv(sym, tr, ls, i);
    assert forall p | p in s.mem :: PageOk(sym, s, p);
    EntriesByOwner(sym, s, s.published, 0);
    owners := OwnersOf(s.owners, s.published, 0);
    assert s.published[0..] == s.published;
    forall op | op in Reserved(s) ensures s.pcs[op].page in s.published {
      assert OpOk(s, op);
    }
    DistinctCount(owners, Reserved(s));
  }

  lemma {:induction false} DistinctCount<T>(s: seq<T>, elements: set<T>)
    requires Distinct(s) && forall x :: x in s <==> x in elements
    ensures |s| == |elements|
  {
    if s == [] {
      assert elements == {};
    } else {
      var last, rest := s[|s| - 1], s[..|s| - 1];
      assert s == rest + [last];
      assert last !in rest;
      assert forall x :: x in rest <==> x in elements - {last};
      DistinctCount(rest, elements - {last});
    }
  }

  /** With no insertion in flight, the walk yields exactly the inserted symbols, each insertion once. */
  lemma QuietWalk(sym: Op -> Symbol, tr: seq<State>, ls: seq<Label>, i: nat) returns (ops: seq<Op>)
    requires IsRun(sym, tr, ls) && i < |tr|
    requires forall op | op in tr[i].pcs :: tr[i].pcs[op].Done?
    ensures IsList(tr[i].mem, tr[i].dst, tr[i].published)
    ensures Distinct(ops) && forall op :: op in ops <==> op in tr[i].pcs
    ensures EntriesOf(tr[i].mem, tr[i].published, 0) == seq(|ops|, k requires 0 <= k < |ops| => sym(ops[k]))
  {
    ops := WalkReadsReservations(sym, tr, ls, i);
    var es := EntriesOf(tr[i].mem, tr[i].published, 0);
    forall k | 0 <= k < |es| ensures es[k] == sym(ops[k]) {
      assert ops[k] in Reserved(tr[i]);
    }
  }
}
