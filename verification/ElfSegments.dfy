/**
 The published set of loaded ELF segments: `dlopen` loads segments and rescans, and a query rescans
 only if nothing has been published yet. A step executes one atomic access of one call, or one pass
 over the loaded segments under the loader's lock. Any number of calls may be in flight.
 `dlclose` is disabled, so segments stay loaded.
 */
module ElfSegments {

  datatype Segment = Segment(base: nat, end: nat)
  type Snapshot = set<Segment>
  type Op = nat

  const MAX_ADDRESS: nat := 0xFFFF_FFFF_FFFF_FFFF

  datatype Pointer = Null | At(id: nat)

  datatype Call = Open(segments: Snapshot) | Ask(ptr: nat) | Plain

  /** `since` is what was loaded when a rescan was called, `asked` what was settled when a query was. */
  datatype Pc =
    | Begin(call: Call, asked: Snapshot)
    | Load(call: Call, since: Snapshot)
    | Scan(call: Call, since: Snapshot, seen: Pointer)
    | Compare(call: Call, since: Snapshot, seen: Pointer, id: nat)
    | Swap(call: Call, since: Snapshot, seen: Pointer, id: nat)
    | Again(ptr: nat, since: Snapshot)
    | Answer(ptr: nat, id: nat, asked: Snapshot)
    | Answered(ptr: nat, result: bool, asked: Snapshot)
    | Returned(since: Snapshot)

  /**
   `sets` are the allocated sets. `history` (everything ever published) and `settled` (what was loaded
   when some finished rescan was called) are history variables: no step reads them.
   */
  datatype State = State(
    loaded: Snapshot, published: Pointer, sets: map<nat, Snapshot>, pcs: map<Op, Pc>, history: set<nat>,
    settled: Snapshot
  )

  datatype Label =
    | Invoke(op: Op, call: Call)
    | Enter(op: Op)
    | LoadSeen(op: Op)
    | ScanLoaded(op: Op, id: nat)
    | CompareHash(op: Op)
    | Exchange(op: Op)
    | LoadAgain(op: Op)
    | Find(op: Op)

  const Init := State({}, Null, map[], map[], {}, {})

  ghost predicate Contains(segments: Snapshot, ptr: nat) {
    exists segment :: segment in segments && segment.base <= ptr < segment.end
  }

  // ---------------------------------------------------------------------------------------
  // The steps
  // ---------------------------------------------------------------------------------------

  predicate Enabled(s: State, l: Label) {
    match l
    case Invoke(op, call) =>
      op !in s.pcs && (call.Open? ==> SegmentsOk(call.segments))
    case Enter(op) => op in s.pcs && s.pcs[op].Begin?
    case LoadSeen(op) => op in s.pcs && s.pcs[op].Load?
    case ScanLoaded(op, id) => op in s.pcs && s.pcs[op].Scan? && id !in s.sets
    case CompareHash(op) => op in s.pcs && s.pcs[op].Compare?
    case Exchange(op) => op in s.pcs && s.pcs[op].Swap?
    case LoadAgain(op) => op in s.pcs && s.pcs[op].Again?
    case Find(op) => op in s.pcs && s.pcs[op].Answer?
  }

  /** No step reads a set that was freed, and the assertion behind the second load holds. */
  predicate NoFault(s: State, l: Label)
    requires Enabled(s, l)
  {
    match l
    case CompareHash(op) => s.pcs[op].id in s.sets && (s.pcs[op].seen.At? ==> s.pcs[op].seen.id in s.sets)
    case LoadAgain(op) => s.published.At?
    case Find(op) => s.pcs[op].id in s.sets
    case _ => true
  }

  function Goto(s: State, op: Op, pc: Pc): State {
    s.(pcs := s.pcs[op := pc])
  }

  /** `dlopen` has loaded its segments, and calls the rescan. */
  function LoadSegments(s: State, op: Op, call: Call): State
    requires call.Open?
  {
    var loaded := s.loaded + call.segments;
    s.(loaded := loaded, pcs := s.pcs[op := Load(call, loaded)])
  }

  /** The end of a rescan: a query goes on, the others return. */
  function Finish(s: State, op: Op, call: Call, since: Snapshot): State {
    s.(settled := s.settled + since, pcs := s.pcs[op := if call.Ask? then Again(call.ptr, since) else Returned(since)])
  }

  function FirstLoad(s: State, op: Op, call: Call, asked: Snapshot): State
    requires call.Ask?
  {
    if call.ptr == MAX_ADDRESS then Goto(s, op, Answered(call.ptr, false, {}))
    else if s.published.Null? then Goto(s, op, Load(call, s.loaded))
    else Goto(s, op, Answer(call.ptr, s.published.id, asked))
  }

  function NewSet(s: State, op: Op, id: nat): State
    requires op in s.pcs && s.pcs[op].Scan?
  {
    var pc := s.pcs[op];
    s.(sets := s.sets[id := s.loaded], pcs := s.pcs[op := Compare(pc.call, pc.since, pc.seen, id)])
  }

  /** The candidate is not needed. */
  function Free(s: State, id: nat): State {
    s.(sets := s.sets - {id})
  }

  function Publish(s: State, id: nat): State {
    s.(published := At(id), history := s.history + {id})
  }

  ghost function After(hash: Snapshot -> int, s: State, l: Label): State
    requires Enabled(s, l) && NoFault(s, l)
  {
    match l
    case Invoke(op, call) => Goto(s, op, Begin(call, s.settled))
    case Enter(op) =>
      var pc := s.pcs[op];
      (match pc.call
       case Open(_) => LoadSegments(s, op, pc.call)
       case Ask(_) => FirstLoad(s, op, pc.call, pc.asked)
       case Plain => Goto(s, op, Load(pc.call, s.loaded)))
    case LoadSeen(op) => Goto(s, op, Scan(s.pcs[op].call, s.pcs[op].since, s.published))
    case ScanLoaded(op, id) => NewSet(s, op, id)
    case CompareHash(op) =>
      var pc := s.pcs[op];
      if pc.seen.At? && hash(s.sets[pc.id]) == hash(s.sets[pc.seen.id])
      then Finish(Free(s, pc.id), op, pc.call, pc.since)
      else Goto(s, op, Swap(pc.call, pc.since, pc.seen, pc.id))
    case Exchange(op) =>
      var pc := s.pcs[op];
      if s.published == pc.seen then Finish(Publish(s, pc.id), op, pc.call, pc.since)
      else Goto(Free(s, pc.id), op, Scan(pc.call, pc.since, s.published))
    case LoadAgain(op) => Goto(s, op, Answer(s.pcs[op].ptr, s.published.id, s.pcs[op].since))
    case Find(op) =>
      var pc := s.pcs[op];
      Goto(s, op, Answered(pc.ptr, Contains(s.sets[pc.id], pc.ptr), pc.asked))
  }

  predicate SegmentsOk(segments: Snapshot) {
    forall segment | segment in segments :: segment.base < segment.end < MAX_ADDRESS
  }

  /** The hash changes whenever segments are added. */
  ghost predicate NoCollision(hash: Snapshot -> int) {
    forall a, b {:trigger hash(a), hash(b)} | a < b && SegmentsOk(b) :: hash(a) != hash(b)
  }

  // ---------------------------------------------------------------------------------------
  // The invariant
  // ---------------------------------------------------------------------------------------

  /** What is published: nothing counts as the empty set. */
  function Published(s: State): Snapshot {
    if s.published.At? && s.published.id in s.sets then s.sets[s.published.id] else {}
  }

  predicate WasPublished(s: State, id: nat) {
    id in s.sets && s.sets[id] <= Published(s)
  }

  /** Everything ever published is still allocated, and part of what is published now. */
  ghost predicate HistoryOk(s: State) {
    && (s.published.Null? <==> s.history == {})
    && (s.published.At? ==> s.published.id in s.history)
    && (forall id {:trigger WasPublished(s, id)} | id in s.history :: WasPublished(s, id))
    && s.settled <= Published(s) <= s.loaded && SegmentsOk(s.loaded)
  }

  predicate SeenOk(s: State, seen: Pointer) {
    seen.At? ==> seen.id in s.history && seen.id in s.sets
  }

  /** A candidate has what was loaded when it was scanned, which includes the set it is to replace. */
  predicate CandidateOk(s: State, since: Snapshot, seen: Pointer, id: nat) {
    && id in s.sets && id !in s.history
    && since <= s.sets[id] <= s.loaded
    && SeenOk(s, seen) && (seen.At? ==> s.sets[seen.id] <= s.sets[id])
  }

  ghost predicate PcOk(s: State, pc: Pc) {
    match pc
    case Begin(call, asked) => asked <= s.settled && (call.Open? ==> SegmentsOk(call.segments))
    case Load(call, since) => since <= s.loaded
    case Scan(call, since, seen) => since <= s.loaded && SeenOk(s, seen)
    case Compare(call, since, seen, id) => CandidateOk(s, since, seen, id)
    case Swap(call, since, seen, id) => CandidateOk(s, since, seen, id)
    case Again(ptr, since) => s.published.At? && since <= Published(s)
    case Answer(ptr, id, asked) => id in s.history && id in s.sets && asked <= s.sets[id]
    case Answered(ptr, result, asked) => (Contains(asked, ptr) ==> result) && (result ==> Contains(s.loaded, ptr))
    case Returned(since) => s.published.At? && since <= Published(s)
  }

  function Candidate(pc: Pc): set<nat> {
    if pc.Compare? || pc.Swap? then {pc.id} else {}
  }

  /** No two calls share a candidate. */
  predicate Apart(s: State, op: Op, op': Op)
    requires op in s.pcs && op' in s.pcs
  {
    op != op' ==> Candidate(s.pcs[op]) !! Candidate(s.pcs[op'])
  }

  ghost predicate Inv(s: State) {
    && HistoryOk(s)
    && (forall op {:trigger PcOk(s, s.pcs[op])} | op in s.pcs :: PcOk(s, s.pcs[op]))
    && (forall op, op' {:trigger Apart(s, op, op')} | op in s.pcs && op' in s.pcs :: Apart(s, op, op'))
  }

  lemma InitInv()
    ensures Inv(Init)
  {
  }

  /** The state only grows, and keeps the sets that `kept` or anything published refer to. */
  ghost predicate Grows(s: State, s': State, kept: set<nat>) {
    && s.loaded <= s'.loaded && s.settled <= s'.settled && s.history <= s'.history
    && Published(s) <= Published(s')
    && (s.published.At? ==> s'.published.At?)
    && (forall id | id in s.sets && (id in s.history || id in kept) :: id in s'.sets && s'.sets[id] == s.sets[id])
    && (forall id | id in kept && id !in s.history :: id !in s'.history)
  }

  lemma ContainsMore(a: Snapshot, b: Snapshot, ptr: nat)
    requires a <= b
    ensures Contains(a, ptr) ==> Contains(b, ptr)
  {
  }

  /** A call that does not move stays in order. */
  lemma PcStaysOk(s: State, s': State, pc: Pc)
    requires PcOk(s, pc) && Grows(s, s', Candidate(pc))
    ensures PcOk(s', pc)
  {
    if pc.Answered? {
      ContainsMore(s.loaded, s'.loaded, pc.ptr);
    }
  }

  /** All but `op` stay where they are. */
  ghost predicate OthersStay(s: State, s': State, op: Op) {
    && s'.pcs.Keys == s.pcs.Keys + {op}
    && forall o {:trigger s'.pcs[o]} | o in s.pcs && o != op :: s'.pcs[o] == s.pcs[o]
  }

  /** The candidates of the other calls. */
  ghost predicate OthersKept(s: State, s': State, op: Op) {
    forall o {:trigger Grows(s, s', Candidate(s.pcs[o]))} | o in s.pcs && o != op :: Grows(s, s', Candidate(s.pcs[o]))
  }

  /** A step of `op` that keeps the others in order, and is in order itself, keeps the invariant. */
  lemma OneMoves(s: State, s': State, op: Op)
    requires Inv(s) && OthersStay(s, s', op) && OthersKept(s, s', op)
    requires HistoryOk(s') && op in s'.pcs && PcOk(s', s'.pcs[op])
    requires forall o {:trigger Candidate(s'.pcs[o])} | o in s.pcs && o != op ::
      Candidate(s'.pcs[op]) !! Candidate(s'.pcs[o])
    ensures Inv(s')
  {
    forall o | o in s'.pcs ensures PcOk(s', s'.pcs[o]) {
      if o != op {
        assert PcOk(s, s.pcs[o]) && Grows(s, s', Candidate(s.pcs[o]));
        PcStaysOk(s, s', s.pcs[o]);
      }
    }
    forall o, o' | o in s'.pcs && o' in s'.pcs ensures Apart(s', o, o') {
      if o != op && o' != op {
        assert Apart(s, o, o');
      } else if o != o' {
        assert Candidate(s'.pcs[o]) !! Candidate(s'.pcs[o']);
      }
    }
  }

  // ---------------------------------------------------------------------------------------
  // Every step keeps it
  // ---------------------------------------------------------------------------------------

  lemma NeverFaults(s: State, l: Label)
    requires Inv(s) && Enabled(s, l)
    ensures NoFault(s, l)
  {
    if !l.Invoke? {
      assert PcOk(s, s.pcs[l.op]);
    }
  }

  /** A step that only moves one call. */
  lemma GotoKeepsInv(s: State, op: Op, pc: Pc)
    requires Inv(s) && PcOk(s, pc)
    requires Candidate(pc) == {} || (op in s.pcs && Candidate(pc) == Candidate(s.pcs[op]))
    ensures Inv(Goto(s, op, pc))
  {
    var s' := Goto(s, op, pc);
    PcStaysOk(s, s', pc);
    forall id {:trigger WasPublished(s', id)} | id in s'.history ensures WasPublished(s', id) {
      assert WasPublished(s, id);
    }
    forall o {:trigger Candidate(s'.pcs[o])} | o in s.pcs && o != op
      ensures Candidate(s'.pcs[op]) !! Candidate(s'.pcs[o])
    {
      assert op in s.pcs ==> Apart(s, op, o);
    }
    OneMoves(s, s', op);
  }

  lemma LoadKeepsInv(s: State, op: Op, call: Call)
    requires Inv(s) && op in s.pcs && call.Open? && SegmentsOk(call.segments)
    ensures Inv(LoadSegments(s, op, call))
  {
    var s' := LoadSegments(s, op, call);
    forall id {:trigger WasPublished(s', id)} | id in s'.history ensures WasPublished(s', id) {
      assert WasPublished(s, id);
    }
    OneMoves(s, s', op);
  }

  lemma ScanKeepsInv(s: State, op: Op, id: nat)
    requires Inv(s) && op in s.pcs && s.pcs[op].Scan? && id !in s.sets
    ensures Inv(NewSet(s, op, id))
  {
    var s' := NewSet(s, op, id);
    assert PcOk(s, s.pcs[op]);
    NewIdIsUnknown(s, id);
    forall i {:trigger WasPublished(s', i)} | i in s'.history ensures WasPublished(s', i) {
      assert WasPublished(s, i);
    }
    SeenWasLoaded(s, s.pcs[op].seen);
    forall o {:trigger Candidate(s'.pcs[o])} | o in s.pcs && o != op
      ensures Candidate(s'.pcs[op]) !! Candidate(s'.pcs[o])
    {
      assert PcOk(s, s.pcs[o]);
    }
    OneMoves(s, s', op);
  }

  lemma NewIdIsUnknown(s: State, id: nat)
    requires HistoryOk(s) && id !in s.sets
    ensures id !in s.history && s.published != At(id)
  {
    assert id in s.history ==> WasPublished(s, id);
  }

  lemma SeenWasLoaded(s: State, seen: Pointer)
    requires HistoryOk(s) && SeenOk(s, seen)
    ensures seen.At? ==> s.sets[seen.id] <= Published(s) <= s.loaded
  {
    assert seen.At? ==> WasPublished(s, seen.id);
  }

  /** Freeing the own candidate does not disturb the other calls. */
  lemma FreeOthersKept(s: State, s': State, op: Op, id: nat)
    requires Inv(s) && op in s.pcs && id in Candidate(s.pcs[op])
    requires s'.sets == s.sets - {id} && s'.loaded == s.loaded && s'.published == s.published && s'.history == s.history
    requires s.settled <= s'.settled
    ensures OthersKept(s, s', op) && Published(s') == Published(s)
  {
    assert PcOk(s, s.pcs[op]);
    forall o | o in s.pcs && o != op ensures Grows(s, s', Candidate(s.pcs[o])) {
      assert Apart(s, op, o);
    }
  }

  /** The end of a rescan that found nothing new. */
  lemma DiscardKeepsInv(s: State, op: Op, pc': Pc, id: nat, settled: Snapshot)
    requires Inv(s) && op in s.pcs && id in Candidate(s.pcs[op]) && Candidate(pc') == {}
    requires s.settled <= settled <= Published(s)
    requires
      var s' := Free(s, id).(pcs := s.pcs[op := pc'], settled := settled);
      PcOk(s', pc')
    ensures Inv(Free(s, id).(pcs := s.pcs[op := pc'], settled := settled))
  {
    var s' := Free(s, id).(pcs := s.pcs[op := pc'], settled := settled);
    assert PcOk(s, s.pcs[op]);
    FreeOthersKept(s, s', op, id);
    forall i {:trigger WasPublished(s', i)} | i in s'.history ensures WasPublished(s', i) {
      assert WasPublished(s, i);
    }
    OneMoves(s, s', op);
  }

  /** What replaces the published set includes it. */
  lemma PublishGrows(s: State, op: Op)
    requires Inv(s) && op in s.pcs && s.pcs[op].Swap? && s.published == s.pcs[op].seen
    ensures s.pcs[op].id in s.sets && s.pcs[op].id !in s.history
    ensures Published(s) <= s.sets[s.pcs[op].id] == Published(Publish(s, s.pcs[op].id))
    ensures HistoryOk(Publish(s, s.pcs[op].id))
  {
    assert PcOk(s, s.pcs[op]);
    var s' := Publish(s, s.pcs[op].id);
    forall i {:trigger WasPublished(s', i)} | i in s'.history ensures WasPublished(s', i) {
      assert i in s.history ==> WasPublished(s, i);
    }
  }

  lemma PublishKeepsInv(s: State, op: Op)
    requires Inv(s) && op in s.pcs && s.pcs[op].Swap? && s.published == s.pcs[op].seen
    ensures Inv(Finish(Publish(s, s.pcs[op].id), op, s.pcs[op].call, s.pcs[op].since))
  {
    var pc := s.pcs[op];
    var s' := Finish(Publish(s, pc.id), op, pc.call, pc.since);
    PublishGrows(s, op);
    assert PcOk(s, pc);
    forall i {:trigger WasPublished(s', i)} | i in s'.history ensures WasPublished(s', i) {
      assert WasPublished(Publish(s, pc.id), i);
    }
    forall o | o in s.pcs && o != op ensures Grows(s, s', Candidate(s.pcs[o])) {
      assert Apart(s, op, o);
    }
    OneMoves(s, s', op);
  }

  lemma SameHashSameSet(hash: Snapshot -> int, a: Snapshot, b: Snapshot)
    requires NoCollision(hash) && a <= b && SegmentsOk(b) && hash(a) == hash(b)
    ensures a == b
  {
    assert !(a < b);
  }

  /** Equal hashes: what was found is published already. */
  lemma SameHashKeepsInv(hash: Snapshot -> int, s: State, op: Op)
    requires Inv(s) && NoCollision(hash) && op in s.pcs && s.pcs[op].Compare?
    requires Enabled(s, CompareHash(op)) && NoFault(s, CompareHash(op)) && s.pcs[op].seen.At?
    requires hash(s.sets[s.pcs[op].id]) == hash(s.sets[s.pcs[op].seen.id])
    ensures Inv(Finish(Free(s, s.pcs[op].id), op, s.pcs[op].call, s.pcs[op].since))
  {
    var pc := s.pcs[op];
    assert PcOk(s, pc);
    SameHashSameSet(hash, s.sets[pc.seen.id], s.sets[pc.id]);
    SeenWasLoaded(s, pc.seen);
    var pc' := if pc.call.Ask? then Again(pc.call.ptr, pc.since) else Returned(pc.since);
    var s' := Free(s, pc.id).(pcs := s.pcs[op := pc'], settled := s.settled + pc.since);
    FreeOthersKept(s, s', op, pc.id);
    DiscardKeepsInv(s, op, pc', pc.id, s.settled + pc.since);
    assert s' == Finish(Free(s, pc.id), op, pc.call, pc.since);
  }

  lemma RetryKeepsInv(s: State, op: Op)
    requires Inv(s) && op in s.pcs && s.pcs[op].Swap?
    ensures Inv(Goto(Free(s, s.pcs[op].id), op, Scan(s.pcs[op].call, s.pcs[op].since, s.published)))
  {
    var pc := s.pcs[op];
    assert PcOk(s, pc);
    var pc' := Scan(pc.call, pc.since, s.published);
    var s' := Free(s, pc.id).(pcs := s.pcs[op := pc'], settled := s.settled);
    assert s.published.At? ==> WasPublished(s, s.published.id);
    DiscardKeepsInv(s, op, pc', pc.id, s.settled);
    assert s' == Goto(Free(s, pc.id), op, pc');
  }

  lemma EnterKeepsInv(s: State, op: Op)
    requires Inv(s) && op in s.pcs && s.pcs[op].Begin? && s.pcs[op].call.Ask?
    ensures Inv(FirstLoad(s, op, s.pcs[op].call, s.pcs[op].asked))
  {
    var pc := s.pcs[op];
    assert PcOk(s, pc);
    assert s.published.At? ==> WasPublished(s, s.published.id);
    if pc.call.ptr == MAX_ADDRESS {
      assert !Contains({}, MAX_ADDRESS);
      GotoKeepsInv(s, op, Answered(pc.call.ptr, false, {}));
    } else if s.published.Null? {
      GotoKeepsInv(s, op, Load(pc.call, s.loaded));
    } else {
      GotoKeepsInv(s, op, Answer(pc.call.ptr, s.published.id, pc.asked));
    }
  }

  lemma FindKeepsInv(s: State, op: Op)
    requires Inv(s) && op in s.pcs && s.pcs[op].Answer? && s.pcs[op].id in s.sets
    ensures Inv(Goto(s, op, Answered(s.pcs[op].ptr, Contains(s.sets[s.pcs[op].id], s.pcs[op].ptr), s.pcs[op].asked)))
  {
    var pc := s.pcs[op];
    assert PcOk(s, pc) && WasPublished(s, pc.id);
    ContainsMore(pc.asked, s.sets[pc.id], pc.ptr);
    ContainsMore(s.sets[pc.id], s.loaded, pc.ptr);
    GotoKeepsInv(s, op, Answered(pc.ptr, Contains(s.sets[pc.id], pc.ptr), pc.asked));
  }

  /** Every step of every call keeps the invariant, if the hash tells different sets apart. */
  lemma StepKeepsInv(hash: Snapshot -> int, s: State, l: Label)
    requires Inv(s) && NoCollision(hash) && Enabled(s, l) && NoFault(s, l)
    ensures Inv(After(hash, s, l))
  {
    match l
    case Invoke(op, call) =>
      GotoKeepsInv(s, op, Begin(call, s.settled));
    case Enter(op) =>
      var pc := s.pcs[op];
      assert PcOk(s, pc);
      match pc.call {
        case Open(_) => LoadKeepsInv(s, op, pc.call);
        case Ask(_) => EnterKeepsInv(s, op);
        case Plain => GotoKeepsInv(s, op, Load(pc.call, s.loaded));
      }
    case LoadSeen(op) =>
      assert PcOk(s, s.pcs[op]);
      assert s.published.At? ==> WasPublished(s, s.published.id);
      GotoKeepsInv(s, op, Scan(s.pcs[op].call, s.pcs[op].since, s.published));
    case ScanLoaded(op, id) =>
      ScanKeepsInv(s, op, id);
    case CompareHash(op) =>
      var pc := s.pcs[op];
      assert PcOk(s, pc);
      if pc.seen.At? && hash(s.sets[pc.id]) == hash(s.sets[pc.seen.id]) {
        SameHashKeepsInv(hash, s, op);
      } else {
        GotoKeepsInv(s, op, Swap(pc.call, pc.since, pc.seen, pc.id));
      }
    case Exchange(op) =>
      if s.published == s.pcs[op].seen {
        PublishKeepsInv(s, op);
      } else {
        RetryKeepsInv(s, op);
      }
    case LoadAgain(op) =>
      assert PcOk(s, s.pcs[op]) && WasPublished(s, s.published.id);
      GotoKeepsInv(s, op, Answer(s.pcs[op].ptr, s.published.id, s.pcs[op].since));
    case Find(op) =>
      FindKeepsInv(s, op);
  }

  // ---------------------------------------------------------------------------------------
  // Runs
  // ---------------------------------------------------------------------------------------

  /** The steps `ls` lead from `s` to `s'`. By `NeverFaults`, `NoFault` excludes no run. */
  ghost predicate Runs(hash: Snapshot -> int, s: State, ls: seq<Label>, s': State)
    decreases |ls|
  {
    if ls == [] then s' == s
    else Enabled(s, ls[0]) && NoFault(s, ls[0]) && Runs(hash, After(hash, s, ls[0]), ls[1..], s')
  }

  /** What was published at `id` is neither freed nor changed. */
  predicate Kept(s: State, s': State, id: nat) {
    id in s'.history && id in s.sets && id in s'.sets && s'.sets[id] == s.sets[id]
  }

  /** What is published is never null again, only grows, and readers may keep using what they have. */
  ghost predicate PublishedGrows(s: State, s': State) {
    && Published(s) <= Published(s') && (s.published.At? ==> s'.published.At?)
    && forall id {:trigger Kept(s, s', id)} | id in s.history :: Kept(s, s', id)
  }

  lemma StepGrows(hash: Snapshot -> int, s: State, l: Label)
    requires Inv(s) && NoCollision(hash) && Enabled(s, l) && NoFault(s, l)
    ensures PublishedGrows(s, After(hash, s, l))
  {
    var s' := After(hash, s, l);
    if l.CompareHash? || l.Exchange? {
      assert PcOk(s, s.pcs[l.op]);
    }
    if l.Exchange? && s.published == s.pcs[l.op].seen {
      PublishGrows(s, l.op);
    }
    forall id {:trigger Kept(s, s', id)} | id in s.history ensures Kept(s, s', id) {
      assert WasPublished(s, id);
    }
  }

  lemma GrowsOn(s: State, m: State, s': State)
    requires PublishedGrows(s, m) && PublishedGrows(m, s')
    ensures PublishedGrows(s, s')
  {
    forall id {:trigger Kept(s, s', id)} | id in s.history ensures Kept(s, s', id) {
      assert Kept(s, m, id) && Kept(m, s', id);
    }
  }

  /** Over a whole run, whatever the interleaving: the invariant holds at the end, and the published set has grown. */
  lemma {:induction false} RunKeepsInv(hash: Snapshot -> int, s: State, ls: seq<Label>, s': State)
    requires Inv(s) && NoCollision(hash) && Runs(hash, s, ls, s')
    ensures Inv(s') && PublishedGrows(s, s')
    decreases |ls|
  {
    if ls != [] {
      StepKeepsInv(hash, s, ls[0]);
      StepGrows(hash, s, ls[0]);
      RunKeepsInv(hash, After(hash, s, ls[0]), ls[1..], s');
      GrowsOn(s, After(hash, s, ls[0]), s');
    } else {
      forall id {:trigger Kept(s, s', id)} | id in s.history ensures Kept(s, s', id) {
        assert WasPublished(s, id);
      }
    }
  }

  /** A finished rescan: some set is published, and has everything that was loaded before the call. */
  ghost predicate Covered(s: State, op: Op) {
    op in s.pcs && s.pcs[op].Returned? ==> s.published.At? && s.pcs[op].since <= Published(s)
  }

  lemma RescanCovers(hash: Snapshot -> int, ls: seq<Label>, s: State, more: seq<Label>, s': State, op: Op)
    requires NoCollision(hash) && Runs(hash, Init, ls, s) && Runs(hash, s, more, s')
    ensures Covered(s, op)
    ensures op in s.pcs && s.pcs[op].Returned? ==> s'.published.At? && s.pcs[op].since <= Published(s')
  {
    InitInv();
    RunKeepsInv(hash, Init, ls, s);
    RunKeepsInv(hash, s, more, s');
    assert op in s.pcs ==> PcOk(s, s.pcs[op]);
  }

  /** A query finds every segment that was settled when it was called, and nothing that is not loaded. */
  lemma AnswersAreRight(hash: Snapshot -> int, ls: seq<Label>, s: State, op: Op)
    requires NoCollision(hash) && Runs(hash, Init, ls, s) && op in s.pcs && s.pcs[op].Answered?
    ensures Contains(s.pcs[op].asked, s.pcs[op].ptr) ==> s.pcs[op].result
    ensures s.pcs[op].result ==> Contains(s.loaded, s.pcs[op].ptr) && s.pcs[op].ptr != MAX_ADDRESS
  {
    InitInv();
    RunKeepsInv(hash, Init, ls, s);
    assert PcOk(s, s.pcs[op]);
  }

  // ---------------------------------------------------------------------------------------
  // The hash
  // ---------------------------------------------------------------------------------------

  /** The steps of a call that loads `segments`, up to the comparison of the hashes. */
  function OpenSteps(op: Op, segments: Snapshot, id: nat): seq<Label> {
    [Invoke(op, Open(segments)), Enter(op), LoadSeen(op), ScanLoaded(op, id), CompareHash(op)]
  }

  /** A run in which `a` is loaded and published, and then `b` is loaded. */
  function LosingRun(a: Snapshot, b: Snapshot): seq<Label> {
    OpenSteps(0, a, 0) + [Exchange(0)] + OpenSteps(1, b, 1)
  }

  lemma {:induction false} RunsTogether(
      hash: Snapshot -> int, s: State, ls: seq<Label>, m: State, ls': seq<Label>, s': State)
    requires Runs(hash, s, ls, m) && Runs(hash, m, ls', s')
    ensures Runs(hash, s, ls + ls', s')
    decreases |ls|
  {
    if ls == [] {
      assert ls + ls' == ls';
    } else {
      RunsTogether(hash, After(hash, s, ls[0]), ls[1..], m, ls', s');
      assert (ls + ls')[1..] == ls[1..] + ls';
    }
  }

  lemma OneStep(hash: Snapshot -> int, s: State, l: Label)
    requires Enabled(s, l) && NoFault(s, l)
    ensures Runs(hash, s, [l], After(hash, s, l))
  {
    assert Runs(hash, After(hash, s, l), [l][1..], After(hash, s, l));
  }

  /** A call on its own, up to the candidate. */
  lemma OpenRun(hash: Snapshot -> int, s: State, op: Op, segments: Snapshot, id: nat) returns (s': State)
    requires op !in s.pcs && id !in s.sets && SegmentsOk(segments)
    ensures Runs(hash, s, OpenSteps(op, segments, id)[..4], s')
    ensures
      var loaded := s.loaded + segments;
      s' == s.(loaded := loaded, sets := s.sets[id := loaded], pcs := s'.pcs)
      && s'.pcs == s.pcs[op := Compare(Open(segments), loaded, s.published, id)]
  {
    var ls := OpenSteps(op, segments, id);
    var a := After(hash, s, ls[0]);
    var b := After(hash, a, ls[1]);
    var c := After(hash, b, ls[2]);
    s' := After(hash, c, ls[3]);
    OneStep(hash, s, ls[0]);
    OneStep(hash, a, ls[1]);
    OneStep(hash, b, ls[2]);
    OneStep(hash, c, ls[3]);
    RunsTogether(hash, s, [ls[0]], a, [ls[1]], b);
    RunsTogether(hash, s, [ls[0]] + [ls[1]], b, [ls[2]], c);
    RunsTogether(hash, s, [ls[0]] + [ls[1]] + [ls[2]], c, [ls[3]], s');
    assert ls[..4] == [ls[0]] + [ls[1]] + [ls[2]] + [ls[3]];
    assert s'.pcs == s.pcs[op := s'.pcs[op]];
  }

  /** A first call on its own publishes its segments. */
  lemma PublishRun(hash: Snapshot -> int, a: Snapshot) returns (s: State)
    requires SegmentsOk(a)
    ensures Runs(hash, Init, OpenSteps(0, a, 0) + [Exchange(0)], s)
    ensures s.loaded == a && s.published == At(0) && s.sets == map[0 := a] && 1 !in s.pcs
  {
    var first := OpenRun(hash, Init, 0, a, 0);
    assert first.loaded == a;
    var swap := After(hash, first, CompareHash(0));
    OneStep(hash, first, CompareHash(0));
    RunsTogether(hash, Init, OpenSteps(0, a, 0)[..4], first, [CompareHash(0)], swap);
    assert OpenSteps(0, a, 0) == OpenSteps(0, a, 0)[..4] + [CompareHash(0)];
    s := After(hash, swap, Exchange(0));
    OneStep(hash, swap, Exchange(0));
    RunsTogether(hash, Init, OpenSteps(0, a, 0), swap, [Exchange(0)], s);
  }

  /** With the same hash, the next call on its own drops what it found. */
  lemma DropRun(hash: Snapshot -> int, s: State, a: Snapshot, b: Snapshot) returns (s': State)
    requires s.loaded == a && s.published == At(0) && s.sets == map[0 := a] && 1 !in s.pcs
    requires a < b && SegmentsOk(b) && hash(a) == hash(b)
    ensures Runs(hash, s, OpenSteps(1, b, 1), s') && !Covered(s', 1)
  {
    var second := OpenRun(hash, s, 1, b, 1);
    assert a + b == b;
    s' := After(hash, second, CompareHash(1));
    OneStep(hash, second, CompareHash(1));
    RunsTogether(hash, s, OpenSteps(1, b, 1)[..4], second, [CompareHash(1)], s');
    assert OpenSteps(1, b, 1) == OpenSteps(1, b, 1)[..4] + [CompareHash(1)];
  }

  /** If adding segments leaves the hash as it was, a rescan returns without publishing them. */
  lemma CollisionLosesSegments(hash: Snapshot -> int, a: Snapshot, b: Snapshot) returns (s: State)
    requires a < b && SegmentsOk(b) && hash(a) == hash(b)
    ensures Runs(hash, Init, LosingRun(a, b), s) && !Covered(s, 1)
  {
    assert SegmentsOk(a);
    var published := PublishRun(hash, a);
    s := DropRun(hash, published, a, b);
    RunsTogether(hash, Init, OpenSteps(0, a, 0) + [Exchange(0)], published, OpenSteps(1, b, 1), s);
  }

  /** In every run, a rescan that has returned has published what was loaded before its call. */
  ghost predicate AlwaysCovers(hash: Snapshot -> int) {
    forall ls, s, op :: Runs(hash, Init, ls, s) ==> Covered(s, op)
  }

  /** That holds exactly for the hashes that change whenever segments are added. */
  lemma AlwaysCoversIff(hash: Snapshot -> int)
    ensures AlwaysCovers(hash) <==> NoCollision(hash)
  {
    if NoCollision(hash) {
      forall ls, s, op | Runs(hash, Init, ls, s) ensures Covered(s, op) {
        RescanCovers(hash, ls, s, [], s, op);
      }
    }
    if AlwaysCovers(hash) {
      forall a, b | a < b && SegmentsOk(b) ensures hash(a) != hash(b) {
        if hash(a) == hash(b) {
          var s := CollisionLosesSegments(hash, a, b);
        }
      }
    }
  }
}
