/**
 The lock-free list of pages in which the instrumented program records the results of `dlsym`,
 and the walk that later reads it back from a core dump.

 Each call of the insert routine is an operation with its own program counter; a step executes
 one atomic access of one operation. Any number of operations may be in flight, in any order.
 Writes to a page that no other operation can reach yet are folded into the `mmap` step.
 */
module DlsymPages {
  import opened MachineWords

  const CAPACITY: nat := DLSYM_PAGE_NUM_POINTERS

  type Addr = nat
  type Symbol = nat
  type Op = nat

  const NULL: Addr := 0

  datatype Page = Page(next: Addr, count: nat, pointers: seq<Symbol>)

  datatype Pc =
    | Start
    | Loop(page: Addr)
    | Store(page: Addr, idx: nat)
    | Full(page: Addr)
    | Exchange(page: Addr, mapped: Addr)
    | Unmap(mapped: Addr, expected: Addr)
    | Done(page: Addr, idx: nat)

  /**
   `dst` and `mem` are the shared memory. `published` (newest first) and `owners` (who reserved
   each slot) are history variables: no step reads them.
   */
  datatype State = State(
    dst: Addr,
    mem: map<Addr, Page>,
    pcs: map<Op, Pc>,
    published: seq<Addr>,
    owners: map<Addr, seq<Op>>
  )

  datatype Label =
    | Invoke(op: Op)
    | DoLoad(op: Op)
    | DoFetchAdd(op: Op)
    | DoStore(op: Op)
    | DoMap(op: Op, at: Addr)
    | DoExchange(op: Op)
    | DoUnmap(op: Op)

  const Init := State(NULL, map[], map[], [], map[])

  // ---------------------------------------------------------------------------------------
  // The steps
  // ---------------------------------------------------------------------------------------

  predicate Enabled(s: State, l: Label) {
    match l
    case Invoke(op) => op !in s.pcs
    case DoLoad(op) => op in s.pcs && s.pcs[op].Start?
    case DoFetchAdd(op) => op in s.pcs && s.pcs[op].Loop? && s.pcs[op].page != NULL
    case DoStore(op) => op in s.pcs && s.pcs[op].Store?
    case DoMap(op, a) =>
      && op in s.pcs && (s.pcs[op].Full? || s.pcs[op] == Loop(NULL))
      && a != NULL && a !in s.mem
    case DoExchange(op) => op in s.pcs && s.pcs[op].Exchange?
    case DoUnmap(op) => op in s.pcs && s.pcs[op].Unmap?
  }

  /** The step only touches mapped memory. */
  predicate NoFault(s: State, l: Label)
    requires Enabled(s, l)
  {
    match l
    case DoFetchAdd(op) => s.pcs[op].page in s.mem && s.pcs[op].page in s.owners
    case DoStore(op) => s.pcs[op].page in s.mem && s.pcs[op].idx < |s.mem[s.pcs[op].page].pointers|
    case DoUnmap(op) => s.pcs[op].mapped in s.mem
    case _ => true
  }

  function Zeros(): seq<Symbol> {
    seq(CAPACITY, _ => 0)
  }

  function LoadHead(s: State, op: Op): State {
    s.(pcs := s.pcs[op := Loop(s.dst)])
  }

  /** The fetch-and-add finds room: the slot belongs to `op` from here on. */
  function Reserve(s: State, op: Op, p: Addr): State
    requires p in s.mem && p in s.owners
  {
    var idx := s.mem[p].count;
    s.(mem := s.mem[p := s.mem[p].(count := idx + 1)],
       pcs := s.pcs[op := Store(p, idx)],
       owners := s.owners[p := s.owners[p] + [op]])
  }

  /** The fetch-and-add finds the page full: only the counter moves. */
  function Overflow(s: State, op: Op, p: Addr): State
    requires p in s.mem
  {
    s.(mem := s.mem[p := s.mem[p].(count := s.mem[p].count + 1)], pcs := s.pcs[op := Full(p)])
  }

  function StoreSymbol(s: State, op: Op, p: Addr, idx: nat, symbol: Symbol): State
    requires p in s.mem && idx < |s.mem[p].pointers|
  {
    s.(mem := s.mem[p := s.mem[p].(pointers := s.mem[p].pointers[idx := symbol])], pcs := s.pcs[op := Done(p, idx)])
  }

  /** `mmap`, `memset` and the write of `next`: `a` is still private to `op`. */
  function MapPage(s: State, op: Op, p: Addr, a: Addr): State {
    s.(mem := s.mem[a := Page(p, 0, Zeros())], pcs := s.pcs[op := Exchange(p, a)], owners := s.owners[a := []])
  }

  /** The compare-and-exchange succeeds: the private page becomes the head of the list. */
  function Publish(s: State, op: Op, a: Addr): State {
    s.(dst := a, pcs := s.pcs[op := Loop(a)], published := [a] + s.published)
  }

  /** The compare-and-exchange fails: somebody else's page is at the head. */
  function Miss(s: State, op: Op, a: Addr): State {
    s.(pcs := s.pcs[op := Unmap(a, s.dst)])
  }

  function UnmapPage(s: State, op: Op, a: Addr, expected: Addr): State {
    s.(mem := s.mem - {a}, pcs := s.pcs[op := Loop(expected)], owners := s.owners - {a})
  }

  function After(sym: Op -> Symbol, s: State, l: Label): State
    requires Enabled(s, l) && NoFault(s, l)
  {
    match l
    case Invoke(op) => s.(pcs := s.pcs[op := Start])
    case DoLoad(op) => LoadHead(s, op)
    case DoFetchAdd(op) =>
      var p := s.pcs[op].page;
      if s.mem[p].count < CAPACITY then Reserve(s, op, p) else Overflow(s, op, p)
    case DoStore(op) => StoreSymbol(s, op, s.pcs[op].page, s.pcs[op].idx, sym(op))
    case DoMap(op, a) => MapPage(s, op, s.pcs[op].page, a)
    case DoExchange(op) =>
      if s.dst == s.pcs[op].page then Publish(s, op, s.pcs[op].mapped) else Miss(s, op, s.pcs[op].mapped)
    case DoUnmap(op) => UnmapPage(s, op, s.pcs[op].mapped, s.pcs[op].expected)
  }

  // ---------------------------------------------------------------------------------------
  // The invariant
  // ---------------------------------------------------------------------------------------

  function Min(a: nat, b: nat): nat {
    if a < b then a else b
  }

  predicate IsFull(s: State, p: Addr) {
    p in s.mem && s.mem[p].count >= CAPACITY
  }

  /** `p` as read from `*Dst` at some time. */
  predicate WasHead(s: State, p: Addr) {
    p == NULL || p in s.published
  }

  /** `p` when there is no room behind it. */
  predicate WasFull(s: State, p: Addr) {
    p == NULL || (p in s.published && IsFull(s, p))
  }

  function NextOf(pages: seq<Addr>, j: nat): Addr {
    if j < |pages| then pages[j] else NULL
  }

  /** The published pages form the list that starts at `*Dst`; only its head may have room. */
  predicate Linked(s: State) {
    && s.dst == NextOf(s.published, 0)
    && (forall j | 0 <= j < |s.published| :: s.published[j] in s.mem && s.published[j] != NULL)
    && (forall j | 0 <= j < |s.published| :: s.mem[s.published[j]].next == NextOf(s.published, j + 1))
    && (forall j | 0 < j < |s.published| :: IsFull(s, s.published[j]))
    && (forall i, j | 0 <= i < j < |s.published| :: s.published[i] != s.published[j])
  }

  /** A slot is zero until its reserver stores to it, and then holds the reserver's symbol. */
  predicate SlotOk(sym: Op -> Symbol, s: State, p: Addr, i: nat)
    requires p in s.mem && p in s.owners && i < |s.owners[p]| && i < |s.mem[p].pointers|
  {
    var op := s.owners[p][i];
    && op in s.pcs
    && (s.pcs[op] == Store(p, i) || s.pcs[op] == Done(p, i))
    && s.mem[p].pointers[i] == if s.pcs[op].Done? then sym(op) else 0
  }

  predicate PageOk(sym: Op -> Symbol, s: State, p: Addr)
    requires p in s.mem
  {
    && p in s.owners && p != NULL
    && |s.mem[p].pointers| == CAPACITY
    && |s.owners[p]| == Min(s.mem[p].count, CAPACITY)
    && (forall i | |s.owners[p]| <= i < CAPACITY :: s.mem[p].pointers[i] == 0)
    && (forall i | 0 <= i < |s.owners[p]| :: SlotOk(sym, s, p, i))
  }

  predicate Private(s: State, a: Addr) {
    a in s.mem && a in s.owners && a !in s.published && s.mem[a].count == 0
  }

  predicate OpOk(s: State, op: Op)
    requires op in s.pcs
  {
    match s.pcs[op]
    case Start => true
    case Loop(p) => WasHead(s, p)
    case Store(p, i) => p in s.published && p in s.owners && i < |s.owners[p]| && s.owners[p][i] == op
    case Full(p) => WasFull(s, p)
    case Exchange(p, a) => WasFull(s, p) && Private(s, a) && s.mem[a].next == p
    case Unmap(a, e) => WasHead(s, e) && Private(s, a)
    case Done(p, i) => p in s.published && p in s.owners && i < |s.owners[p]| && s.owners[p][i] == op
  }

  predicate Holds(s: State, op: Op, a: Addr) {
    op in s.pcs && (s.pcs[op].Exchange? || s.pcs[op].Unmap?) && s.pcs[op].mapped == a
  }

  predicate KeysOk(s: State) {
    s.owners.Keys == s.mem.Keys
  }

  ghost predicate PagesOk(sym: Op -> Symbol, s: State) {
    forall p | p in s.mem :: PageOk(sym, s, p)
  }

  predicate OpsOk(s: State) {
    forall op | op in s.pcs :: OpOk(s, op)
  }

  /** A private page has one holder, and nothing leaks: a mapped page is published or held. */
  ghost predicate HoldersOk(s: State) {
    && (forall o1, o2, a | Holds(s, o1, a) && Holds(s, o2, a) :: o1 == o2)
    && (forall p | p in s.mem :: p in s.published || exists op :: Holds(s, op, p))
  }

  ghost predicate Inv(sym: Op -> Symbol, s: State) {
    KeysOk(s) && Linked(s) && PagesOk(sym, s) && OpsOk(s) && HoldersOk(s)
  }

  lemma InitInv(sym: Op -> Symbol)
    ensures Inv(sym, Init)
  {
  }

  /** No operation ever dereferences an unmapped page. */
  lemma NeverFaults(sym: Op -> Symbol, s: State, l: Label)
    requires Linked(s) && PagesOk(sym, s) && OpsOk(s) && Enabled(s, l)
    ensures NoFault(s, l)
  {
    if !l.Invoke? {
      assert OpOk(s, l.op);
      if l.DoFetchAdd? || l.DoStore? {
        assert s.pcs[l.op].page in s.published;
        assert PageOk(sym, s, s.pcs[l.op].page);
      }
    }
  }

  // ---------------------------------------------------------------------------------------
  // What a step leaves alone
  // ---------------------------------------------------------------------------------------

  /** The published part of the state only gains: pages, reservations and fullness. */
  predicate Grows(s: State, s': State)
    requires KeysOk(s) && KeysOk(s')
  {
    forall p | p in s.published && p in s.mem ::
      && p in s'.published && p in s'.mem
      && s.owners[p] <= s'.owners[p]
      && s'.mem[p].next == s.mem[p].next
      && (s.mem[p].count >= CAPACITY ==> s'.mem[p].count >= CAPACITY)
  }

  predicate OnlyMoves(s: State, s': State, op: Op) {
    && op in s'.pcs
    && (forall o | o in s.pcs && o != op :: o in s'.pcs && s'.pcs[o] == s.pcs[o])
    && (forall o | o in s'.pcs && o != op :: o in s.pcs)
  }

  lemma LinkedKept(s: State, s': State)
    requires KeysOk(s) && KeysOk(s')
    requires Linked(s) && Grows(s, s') && s'.published == s.published && s'.dst == s.dst
    ensures Linked(s')
  {
    hide NextOf;
    assert forall j | 0 <= j < |s.published| :: s.published[j] in s.published;
  }

  /** What an operation has not touched stays in order, while another one moves. */
  lemma OpKept(s: State, s': State, o: Op)
    requires KeysOk(s) && KeysOk(s') && Linked(s) && Grows(s, s')
    requires o in s.pcs && o in s'.pcs && s'.pcs[o] == s.pcs[o] && OpOk(s, o)
    requires forall a | Holds(s, o, a) && Private(s, a) :: Private(s', a) && s'.mem[a].next == s.mem[a].next
    ensures OpOk(s', o)
  {
    hide NextOf;
    assert forall p | p in s.published :: p in s.mem;
    assert s.pcs[o].Exchange? || s.pcs[o].Unmap? ==> Holds(s, o, s.pcs[o].mapped);
  }

  predicate OwnsSlotOf(s: State, op: Op, p: Addr) {
    op in s.pcs && (s.pcs[op].Store? || s.pcs[op].Done?) && s.pcs[op].page == p
  }

  /** A page on which the moving operation has no slot stays in order. */
  lemma PageKept(sym: Op -> Symbol, s: State, s': State, p: Addr, op: Op)
    requires p in s.mem && p in s'.mem && p in s.owners && p in s'.owners && PageOk(sym, s, p)
    requires s'.mem[p] == s.mem[p] && s'.owners[p] == s.owners[p]
    requires !OwnsSlotOf(s, op, p) && OnlyMoves(s, s', op)
    ensures PageOk(sym, s', p)
  {
    forall i | 0 <= i < |s'.owners[p]| ensures SlotOk(sym, s', p, i) {
      assert SlotOk(sym, s, p, i);
    }
  }

  /** All pages are unchanged but `p`, which is in order again; `op` has no slot elsewhere. */
  lemma PagesKept(sym: Op -> Symbol, s: State, s': State, op: Op, p: Addr)
    requires KeysOk(s) && KeysOk(s') && PagesOk(sym, s) && OnlyMoves(s, s', op)
    requires forall q | q in s'.mem && q != p :: q in s.mem && s'.mem[q] == s.mem[q] && s'.owners[q] == s.owners[q]
    requires forall q | q != p :: !OwnsSlotOf(s, op, q)
    requires p in s'.mem ==> PageOk(sym, s', p)
    ensures PagesOk(sym, s')
  {
    forall q | q in s'.mem ensures PageOk(sym, s', q) {
      if q != p {
        PageKept(sym, s, s', q, op);
      }
    }
  }

  lemma OpsKept(s: State, s': State, op: Op)
    requires KeysOk(s) && KeysOk(s') && Linked(s) && OpsOk(s)
    requires OnlyMoves(s, s', op) && OpOk(s', op) && Grows(s, s')
    requires forall o, a | o != op && Holds(s, o, a) && Private(s, a) ::
      Private(s', a) && s'.mem[a].next == s.mem[a].next
    ensures OpsOk(s')
  {
    hide NextOf;
    forall o | o in s'.pcs ensures OpOk(s', o) {
      if o != op {
        OpKept(s, s', o);
      }
    }
  }

  /** Who holds which page, across a step that neither takes nor gives up a page. */
  lemma HoldersKept(s: State, s': State)
    requires HoldersOk(s)
    requires forall o, a :: Holds(s, o, a) <==> Holds(s', o, a)
    requires s'.mem.Keys == s.mem.Keys && s'.published == s.published
    ensures HoldersOk(s')
  {
    forall p | p in s'.mem && p !in s'.published ensures exists o :: Holds(s', o, p) {
      var o :| Holds(s, o, p);
      assert Holds(s', o, p);
    }
  }

  /** The holder of `a` lets go of it, either by publishing it or by unmapping it. */
  lemma GivesUp(s: State, s': State, op: Op, a: Addr)
    requires HoldersOk(s) && Holds(s, op, a)
    requires forall o, q | o != op :: Holds(s', o, q) <==> Holds(s, o, q)
    requires forall q :: !Holds(s', op, q)
    requires s'.mem.Keys <= s.mem.Keys && forall q | q in s.published :: q in s'.published
    requires a !in s'.mem || a in s'.published
    ensures HoldersOk(s')
  {
    forall q | q in s'.mem && q !in s'.published ensures exists o :: Holds(s', o, q) {
      var o :| Holds(s, o, q);
      assert o != op;
      assert Holds(s', o, q);
    }
  }

  // ---------------------------------------------------------------------------------------
  // Every step keeps the invariant
  // ---------------------------------------------------------------------------------------

  /** A step of one operation that changes nothing in memory. */
  lemma PcStepKeepsInv(sym: Op -> Symbol, s: State, op: Op, pc: Pc)
    requires Inv(sym, s)
    requires op in s.pcs ==> s.pcs[op].Start?
    requires pc.Start? || (pc.Loop? && WasHead(s, pc.page))
    ensures Inv(sym, s.(pcs := s.pcs[op := pc]))
  {
    hide Linked, HoldersOk;
    var s' := s.(pcs := s.pcs[op := pc]);
    LinkedKept(s, s');
    PagesKept(sym, s, s', op, NULL);
    OpsKept(s, s', op);
    HoldersKept(s, s');
  }

  lemma ReservePage(sym: Op -> Symbol, s: State, op: Op, p: Addr)
    requires KeysOk(s) && p in s.mem && PageOk(sym, s, p)
    requires op in s.pcs && s.pcs[op] == Loop(p) && s.mem[p].count < CAPACITY
    ensures PageOk(sym, Reserve(s, op, p), p)
  {
    var s' := Reserve(s, op, p);
    forall i | 0 <= i < |s'.owners[p]| ensures SlotOk(sym, s', p, i) {
      assert i < |s.owners[p]| ==> SlotOk(sym, s, p, i);
    }
  }

  lemma ReserveGrows(s: State, op: Op, p: Addr)
    requires KeysOk(s) && p in s.mem && op in s.pcs && s.pcs[op] == Loop(p)
    ensures var s' := Reserve(s, op, p);
            KeysOk(s') && Grows(s, s') && OnlyMoves(s, s', op)
  {
  }

  lemma ReserveOps(sym: Op -> Symbol, s: State, op: Op, p: Addr)
    requires KeysOk(s) && Linked(s) && OpsOk(s) && p in s.mem && PageOk(sym, s, p)
    requires op in s.pcs && s.pcs[op] == Loop(p) && s.mem[p].count < CAPACITY && p in s.published
    ensures OpsOk(Reserve(s, op, p)) && Linked(Reserve(s, op, p))
  {
    hide NextOf;
    ReserveGrows(s, op, p);
    LinkedKept(s, Reserve(s, op, p));
    OpsKept(s, Reserve(s, op, p), op);
  }

  lemma ReserveKeepsInv(sym: Op -> Symbol, s: State, op: Op, p: Addr)
    requires Inv(sym, s) && op in s.pcs && s.pcs[op] == Loop(p) && p in s.mem && s.mem[p].count < CAPACITY
    ensures Inv(sym, Reserve(s, op, p))
  {
    hide Linked, HoldersOk;
    var s' := Reserve(s, op, p);
    assert OpOk(s, op);
    assert p in s.published by { assert PageOk(sym, s, p); }
    ReserveGrows(s, op, p);
    ReservePage(sym, s, op, p);
    PagesKept(sym, s, s', op, p);
    ReserveOps(sym, s, op, p);
    HoldersKept(s, s');
  }

  lemma OverflowPage(sym: Op -> Symbol, s: State, op: Op, p: Addr)
    requires KeysOk(s) && p in s.mem && PageOk(sym, s, p)
    requires op in s.pcs && s.pcs[op] == Loop(p) && s.mem[p].count >= CAPACITY
    ensures PageOk(sym, Overflow(s, op, p), p)
  {
    var s' := Overflow(s, op, p);
    forall i | 0 <= i < |s'.owners[p]| ensures SlotOk(sym, s', p, i) {
      assert SlotOk(sym, s, p, i);
    }
  }

  lemma OverflowOps(s: State, op: Op, p: Addr)
    requires KeysOk(s) && Linked(s) && OpsOk(s)
    requires op in s.pcs && s.pcs[op] == Loop(p) && p in s.mem && s.mem[p].count >= CAPACITY && p in s.published
    ensures var s' := Overflow(s, op, p);
            KeysOk(s') && Grows(s, s') && OpsOk(s') && Linked(s')
  {
    hide NextOf;
    var s' := Overflow(s, op, p);
    LinkedKept(s, s');
    OpsKept(s, s', op);
  }

  lemma OverflowKeepsInv(sym: Op -> Symbol, s: State, op: Op, p: Addr)
    requires Inv(sym, s) && op in s.pcs && s.pcs[op] == Loop(p) && p in s.mem && s.mem[p].count >= CAPACITY
    ensures Inv(sym, Overflow(s, op, p))
  {
    hide Linked, HoldersOk;
    var s' := Overflow(s, op, p);
    assert OpOk(s, op);
    assert p in s.published by { assert PageOk(sym, s, p); }
    OverflowOps(s, op, p);
    OverflowPage(sym, s, op, p);
    PagesKept(sym, s, s', op, p);
    HoldersKept(s, s');
  }

  lemma StorePage(sym: Op -> Symbol, s: State, op: Op, p: Addr, idx: nat)
    requires KeysOk(s) && p in s.mem && PageOk(sym, s, p) && StoresTo(s, op, p, idx)
    ensures idx < |s.mem[p].pointers| && PageOk(sym, StoreSymbol(s, op, p, idx, sym(op)), p)
  {
    assert SlotOk(sym, s, p, idx);
    var s' := StoreSymbol(s, op, p, idx, sym(op));
    forall i | 0 <= i < |s'.owners[p]| ensures SlotOk(sym, s', p, i) {
      assert SlotOk(sym, s, p, i);
    }
  }

  /** `op` is about to store to its slot. */
  predicate StoresTo(s: State, op: Op, p: Addr, idx: nat) {
    && op in s.pcs && s.pcs[op] == Store(p, idx)
    && p in s.mem && p in s.owners && idx < |s.owners[p]| && s.owners[p][idx] == op
  }

  lemma StoreOps(s: State, op: Op, p: Addr, idx: nat, symbol: Symbol)
    requires KeysOk(s) && Linked(s) && OpsOk(s) && StoresTo(s, op, p, idx) && idx < |s.mem[p].pointers|
    ensures var s' := StoreSymbol(s, op, p, idx, symbol);
            KeysOk(s') && Grows(s, s') && OpsOk(s') && Linked(s')
  {
    hide NextOf;
    var s' := StoreSymbol(s, op, p, idx, symbol);
    LinkedKept(s, s');
    assert OpOk(s, op);
    OpsKept(s, s', op);
  }

  lemma StoreKeepsInv(sym: Op -> Symbol, s: State, op: Op, p: Addr, idx: nat)
    requires Inv(sym, s) && op in s.pcs && s.pcs[op] == Store(p, idx) && p in s.mem && idx < |s.mem[p].pointers|
    ensures Inv(sym, StoreSymbol(s, op, p, idx, sym(op)))
  {
    hide Linked, HoldersOk, PageOk;
    var s' := StoreSymbol(s, op, p, idx, sym(op));
    assert OpOk(s, op);
    StoreOps(s, op, p, idx, sym(op));
    StorePage(sym, s, op, p, idx);
    PagesKept(sym, s, s', op, p);
    HoldersKept(s, s');
  }

  lemma MapOps(s: State, op: Op, p: Addr, a: Addr)
    requires KeysOk(s) && Linked(s) && OpsOk(s)
    requires op in s.pcs && (s.pcs[op] == Full(p) || (s.pcs[op] == Loop(p) && p == NULL)) && a != NULL && a !in s.mem
    ensures var s' := MapPage(s, op, p, a);
            KeysOk(s') && Grows(s, s') && OpsOk(s') && Linked(s')
  {
    hide NextOf;
    var s' := MapPage(s, op, p, a);
    assert OpOk(s, op);
    assert forall q | q in s.published :: q in s.mem && q != a;
    LinkedKept(s, s');
    OpsKept(s, s', op);
  }

  lemma MapHolders(s: State, op: Op, p: Addr, a: Addr)
    requires OpsOk(s) && HoldersOk(s) && op in s.pcs && (s.pcs[op].Full? || s.pcs[op].Loop?) && a !in s.mem
    ensures HoldersOk(MapPage(s, op, p, a))
  {
    var s' := MapPage(s, op, p, a);
    assert forall o, q | o != op :: Holds(s', o, q) <==> Holds(s, o, q);
    assert forall q :: (Holds(s', op, q) <==> q == a) && !Holds(s, op, q);
    assert forall o, q | Holds(s, o, q) :: OpOk(s, o) && q in s.mem;
    forall q | q in s'.mem && q !in s'.published ensures exists o :: Holds(s', o, q) {
      if q == a {
        assert Holds(s', op, q);
      } else {
        var o :| Holds(s, o, q);
        assert Holds(s', o, q);
      }
    }
  }

  lemma MapKeepsInv(sym: Op -> Symbol, s: State, op: Op, p: Addr, a: Addr)
    requires Inv(sym, s)
    requires op in s.pcs && (s.pcs[op] == Full(p) || (s.pcs[op] == Loop(p) && p == NULL)) && a != NULL && a !in s.mem
    ensures Inv(sym, MapPage(s, op, p, a))
  {
    hide Linked, HoldersOk;
    MapOps(s, op, p, a);
    PagesKept(sym, s, MapPage(s, op, p, a), op, a);
    MapHolders(s, op, p, a);
  }

  lemma PublishLinked(s: State, op: Op, p: Addr, a: Addr)
    requires Linked(s) && s.dst == p && WasFull(s, p)
    requires a != NULL && a in s.mem && a !in s.published && s.mem[a].next == p
    ensures Linked(Publish(s, op, a))
  {
    var s' := Publish(s, op, a);
    forall j | 0 < j < |s'.published| ensures s'.published[j] == s.published[j - 1] && IsFull(s', s'.published[j]) {
    }
  }

  lemma PublishOps(s: State, op: Op, p: Addr, a: Addr)
    requires KeysOk(s) && Linked(s) && OpsOk(s) && HoldersOk(s) && op in s.pcs && s.pcs[op] == Exchange(p, a)
    ensures var s' := Publish(s, op, a);
            KeysOk(s') && Grows(s, s') && OpsOk(s') && HoldersOk(s')
  {
    hide NextOf;
    var s' := Publish(s, op, a);
    assert Holds(s, op, a) && s'.published[0] == a;
    assert forall q | q in s.published :: q in s'.published;
    assert forall o | o != op :: !Holds(s, o, a);
    OpsKept(s, s', op);
    GivesUp(s, s', op, a);
  }

  lemma PublishKeepsInv(sym: Op -> Symbol, s: State, op: Op, p: Addr, a: Addr)
    requires Inv(sym, s) && op in s.pcs && s.pcs[op] == Exchange(p, a) && s.dst == p
    ensures Inv(sym, Publish(s, op, a))
  {
    hide Linked, HoldersOk;
    assert OpOk(s, op);
    assert a != NULL by { assert PageOk(sym, s, a); }
    PublishLinked(s, op, p, a);
    PublishOps(s, op, p, a);
    PagesKept(sym, s, Publish(s, op, a), op, NULL);
  }

  lemma MissKeepsInv(sym: Op -> Symbol, s: State, op: Op, p: Addr, a: Addr)
    requires Inv(sym, s) && op in s.pcs && s.pcs[op] == Exchange(p, a)
    ensures Inv(sym, Miss(s, op, a))
  {
    hide HoldersOk;
    var s' := Miss(s, op, a);
    assert OpOk(s, op);
    LinkedKept(s, s');
    PagesKept(sym, s, s', op, NULL);
    OpsKept(s, s', op);
    HoldersKept(s, s');
  }

  lemma UnmapOps(s: State, op: Op, a: Addr, e: Addr)
    requires KeysOk(s) && Linked(s) && OpsOk(s) && HoldersOk(s)
    requires op in s.pcs && s.pcs[op] == Unmap(a, e)
    ensures var s' := UnmapPage(s, op, a, e);
            KeysOk(s') && Grows(s, s') && OpsOk(s') && HoldersOk(s')
  {
    hide NextOf;
    var s' := UnmapPage(s, op, a, e);
    assert OpOk(s, op) && Holds(s, op, a);
    assert forall o | o != op :: !Holds(s, o, a);
    OpsKept(s, s', op);
    GivesUp(s, s', op, a);
  }

  lemma UnmapKeepsInv(sym: Op -> Symbol, s: State, op: Op, a: Addr, e: Addr)
    requires Inv(sym, s) && op in s.pcs && s.pcs[op] == Unmap(a, e)
    ensures Inv(sym, UnmapPage(s, op, a, e))
  {
    hide Linked, HoldersOk;
    UnmapOps(s, op, a, e);
    LinkedKept(s, UnmapPage(s, op, a, e));
    PagesKept(sym, s, UnmapPage(s, op, a, e), op, NULL);
  }

  /** Every step of every operation is free of faults and keeps the invariant. */
  lemma StepKeepsInv(sym: Op -> Symbol, s: State, l: Label)
    requires Inv(sym, s) && Enabled(s, l)
    ensures NoFault(s, l) && Inv(sym, After(sym, s, l))
  {
    NeverFaults(sym, s, l);
    match l
    case Invoke(op) => PcStepKeepsInv(sym, s, op, Start);
    case DoLoad(op) => PcStepKeepsInv(sym, s, op, Loop(s.dst));
    case DoFetchAdd(op) =>
      var p := s.pcs[op].page;
      if s.mem[p].count < CAPACITY {
        ReserveKeepsInv(sym, s, op, p);
      } else {
        OverflowKeepsInv(sym, s, op, p);
      }
    case DoStore(op) => StoreKeepsInv(sym, s, op, s.pcs[op].page, s.pcs[op].idx);
    case DoMap(op, a) => MapKeepsInv(sym, s, op, s.pcs[op].page, a);
    case DoExchange(op) =>
      if s.dst == s.pcs[op].page {
        PublishKeepsInv(sym, s, op, s.pcs[op].page, s.pcs[op].mapped);
      } else {
        MissKeepsInv(sym, s, op, s.pcs[op].page, s.pcs[op].mapped);
      }
    case DoUnmap(op) => UnmapKeepsInv(sym, s, op, s.pcs[op].mapped, s.pcs[op].expected);
  }
}
