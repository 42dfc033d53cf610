/**
 The reader of the edge metadata of one object file: functions are consumed from the front of the words,
 and their locals from the front of the local names. Edges are decoded when they are visited.
 */
module EdgeReader {
  import opened EdgeEncoding
  import opened EdgeStream
  import opened EdgeWriter
  import opened MachineWords
  import opened Sequences
  import opened StringTable

  // ---------------------------------------------------------------------------------------
  // Debug data
  // ---------------------------------------------------------------------------------------

  /** A view of the string table, and of some locals if the file has any. */
  datatype Debug = Debug(blob: string, offsets: seq<nat>, locals: Option<seq<nat>>)

  function StringOf(d: Debug, i: nat): Option<string> {
    if i < |d.offsets| && d.offsets[i] <= |d.blob| then Some(StringAt(d.blob, d.offsets, i)) else None
  }

  function LocalNameOf(d: Debug, i: nat): Option<string> {
    if d.locals.Some? && i < |d.locals.value| then StringOf(d, d.locals.value[i]) else None
  }

  predicate CanSplit(d: Debug, pos: nat) {
    d.locals.Some? ==> pos <= |d.locals.value|
  }

  /** The two halves of `debug_data_split_at`; without locals, both are the whole. */
  function Before(d: Debug, pos: nat): Debug
    requires CanSplit(d, pos)
  {
    if d.locals.Some? then d.(locals := Some(d.locals.value[..pos])) else d
  }

  function Behind(d: Debug, pos: nat): Debug
    requires CanSplit(d, pos)
  {
    if d.locals.Some? then d.(locals := Some(d.locals.value[pos..])) else d
  }

  // ---------------------------------------------------------------------------------------
  // Edges
  // ---------------------------------------------------------------------------------------

  function DecodeEdge(e: RawEdge, function_: nat, symbols: seq<nat>): Option<Edge> {
    var to, from := DecodeNode(e.to, function_, symbols), DecodeNode(e.from, function_, symbols);
    if to.Some? && from.Some? then Some(Edge(to.value, from.value, e.idx)) else None
  }

  function DecodeEdges(es: seq<RawEdge>, function_: nat, symbols: seq<nat>): Option<seq<Edge>> {
    if es == [] then Some([])
    else
      var e, rest := DecodeEdge(es[0], function_, symbols), DecodeEdges(es[1..], function_, symbols);
      if e.Some? && rest.Some? then Some([e.value] + rest.value) else None
  }

  function PrependEdges(es: seq<Edge>, rest: Option<seq<Edge>>): Option<seq<Edge>> {
    if rest.Some? then Some(es + rest.value) else None
  }

  lemma NothingBefore(rest: Option<seq<Edge>>)
    ensures PrependEdges([], rest) == rest
  {
    if rest.Some? {
      EmptyUnit(rest.value);
    }
  }

  /** What the reader hands out for a function: the edges of each kind are still encoded. */
  datatype FunctionInfo = FunctionInfo(
    function_: nat, numLocals: nat, numAllocas: nat, debug: Debug, sbom: Option<(string, string)>, edges: seq<seq<U32>>
  )

  /** An edge that fails ends the visit. */
  method VisitEdges(info: FunctionInfo, kind: nat, symbols: seq<nat>) returns (out: Option<seq<Edge>>)
    requires kind < KINDS == |info.edges| && WholeEdges(Arity(kind), info.edges[kind])
    ensures out == DecodeEdges(EdgesOf(Arity(kind), info.edges[kind], 0), info.function_, symbols)
  {
    var data, arity := info.edges[kind], Arity(kind);
    var visited: seq<Edge> := [];
    var prev: U32 := 0;
    var i := 0;
    WholeSlice(data);
    NothingBefore(DecodeEdges(EdgesOf(arity, data, 0), info.function_, symbols));
    while i < |data|
      invariant i <= |data| && WholeEdges(arity, data[i..])
      invariant DecodeEdges(EdgesOf(arity, data, 0), info.function_, symbols)
        == PrependEdges(visited, DecodeEdges(EdgesOf(arity, data[i..], prev), info.function_, symbols))
    {
      NextVisit(arity, data, i, prev, visited, info.function_, symbols);
      var e;
      e, prev := VisitEdge(arity, data, i, prev, info.function_, symbols);
      if e.None? {
        return None;
      }
      visited := visited + [e.value];
      i := i + arity;
    }
    EmptyUnit(visited);
    return Some(visited);
  }

  /** The body of the loop: the edge at `i`, and the running value behind it. */
  method VisitEdge(arity: nat, data: seq<U32>, i: nat, start: U32, function_: nat, symbols: seq<nat>)
    returns (e: Option<Edge>, prev: U32)
    requires 2 <= arity <= 3 && i + arity <= |data|
    ensures e == DecodeEdge(FirstRaw(arity, data[i..], start), function_, symbols)
    ensures prev == FirstRaw(arity, data[i..], start).from
  {
    prev := start;
    var to := Wrap(prev + Wrap(ZigzagDecode(data[i])));
    prev := to;
    var from := Wrap(prev + Wrap(ZigzagDecode(data[i + 1])));
    prev := from;
    var toNode := DecodeNode(to, function_, symbols);
    if toNode.None? {
      return None, prev;
    }
    var fromNode := DecodeNode(from, function_, symbols);
    if fromNode.None? {
      return None, prev;
    }
    e := Some(Edge(toNode.value, fromNode.value, if arity == 3 then data[i + 2] else 0));
  }

  lemma NextVisit(arity: nat, data: seq<U32>, i: nat, prev: U32, visited: seq<Edge>, function_: nat, symbols: seq<nat>)
    requires 2 <= arity <= 3 && i < |data| && WholeEdges(arity, data[i..])
    ensures i + arity <= |data| && WholeEdges(arity, data[i + arity..])
    ensures
      var raw := FirstRaw(arity, data[i..], prev);
      PrependEdges(visited, DecodeEdges(EdgesOf(arity, data[i..], prev), function_, symbols))
        == VisitOne(visited, raw, EdgesOf(arity, data[i + arity..], raw.from), function_, symbols)
  {
    WithoutFirst(arity, data[i..]);
    FirstOfBlock(arity, data[i..], prev);
    assert data[i..][arity..] == data[i + arity..];
    var raw := FirstRaw(arity, data[i..], prev);
    DecodeFirst(visited, raw, EdgesOf(arity, data[i + arity..], raw.from), function_, symbols);
  }

  /** Visiting `raw`, and then `raws`. */
  function VisitOne(
      visited: seq<Edge>, raw: RawEdge, raws: seq<RawEdge>, function_: nat, symbols: seq<nat>): Option<seq<Edge>> {
    var e := DecodeEdge(raw, function_, symbols);
    if e.Some? then PrependEdges(visited + [e.value], DecodeEdges(raws, function_, symbols)) else None
  }

  lemma DecodeFirst(visited: seq<Edge>, raw: RawEdge, raws: seq<RawEdge>, function_: nat, symbols: seq<nat>)
    ensures PrependEdges(visited, DecodeEdges([raw] + raws, function_, symbols))
      == VisitOne(visited, raw, raws, function_, symbols)
  {
    Halves([raw], raws);
    var e, rest := DecodeEdge(raw, function_, symbols), DecodeEdges(raws, function_, symbols);
    if e.Some? && rest.Some? {
      Associative(visited, [e.value], rest.value);
    }
  }

  // ---------------------------------------------------------------------------------------
  // Functions
  // ---------------------------------------------------------------------------------------

  /** The spans of words of each kind hold these edges. */
  ghost predicate SpansHold(spans: seq<seq<U32>>, kinds: seq<seq<RawEdge>>) {
    && |spans| == |kinds|
    && forall i {:trigger SpanHolds(spans[i], i, kinds[i])} | 0 <= i < |spans| :: SpanHolds(spans[i], i, kinds[i])
  }

  ghost predicate SpanHolds(span: seq<U32>, kind: nat, es: seq<RawEdge>) {
    WholeEdges(Arity(kind), span) && EdgesOf(Arity(kind), span, 0) == es
  }

  /** The record can be handed out: all its indices are in range. */
  predicate Accepts(r: Record, d: Debug, symbols: seq<nat>) {
    && r.symbolIdx < |symbols| && Packable(Symbol(symbols[r.symbolIdx]))
    && CanSplit(d, r.numLocals)
    && StringOf(d, r.component).Some? && StringOf(d, r.version).Some?
  }

  /** No component is recorded where one of the two strings is empty. */
  function Sbom(component: string, version: string): Option<(string, string)> {
    if component != "" && version != "" then Some((component, version)) else None
  }

  /** The component comes first and the version second, if neither is empty. */
  predicate SbomShown(sbom: Option<(string, string)>, component: string, version: string) {
    && (sbom.Some? <==> component != "" && version != "")
    && (sbom.Some? ==> sbom.value.0 == component && sbom.value.1 == version)
  }

  ghost predicate Shows(info: FunctionInfo, r: Record, d: Debug, symbols: seq<nat>)
    requires Accepts(r, d, symbols)
  {
    && info.function_ == symbols[r.symbolIdx]
    && info.numLocals == r.numLocals && info.numAllocas == r.numAllocas
    && info.debug == Before(d, r.numLocals)
    && SbomShown(info.sbom, StringOf(d, r.component).value, StringOf(d, r.version).value)
    && SpansHold(info.edges, r.edges)
  }

  function PrependKinds(kinds: seq<seq<RawEdge>>, r: Parsed<seq<seq<RawEdge>>>): Parsed<seq<seq<RawEdge>>> {
    if r.Fail? then Fail else Read(kinds + r.value, r.rest)
  }

  lemma NoKindsBefore(r: Parsed<seq<seq<RawEdge>>>)
    ensures PrependKinds([], r) == r
  {
    if r.Read? {
      EmptyUnit(r.value);
    }
  }

  /** Reading kind `k`, and then the others. */
  lemma NextKindRead(kinds: seq<seq<RawEdge>>, ws: seq<U32>, k: nat)
    requires k < KINDS
    ensures PrependKinds(kinds, ReadKinds(ws, k)) ==
      if ws == [] || |ws| - 1 < Size(Arity(k), ws[0]) then Fail
      else
        PrependKinds(
          kinds + [EdgesOf(Arity(k), ws[1..][..Size(Arity(k), ws[0])], 0)],
          ReadKinds(ws[1..][Size(Arity(k), ws[0])..], k + 1))
  {
    if ws != [] && Size(Arity(k), ws[0]) <= |ws| - 1 {
      var size := Size(Arity(k), ws[0]);
      assert ws[1..][..size] == ws[1..1 + size] && ws[1..][size..] == ws[1 + size..];
      var rest := ReadKinds(ws[1 + size..], k + 1);
      if rest.Read? {
        Associative(kinds, [EdgesOf(Arity(k), ws[1..1 + size], 0)], rest.value);
      }
    }
  }

  class Frame {
    const symbolAddresses: seq<nat>
    var functionData: seq<U32>
    var debugData: Debug

    constructor (functionData: seq<U32>, symbolAddresses: seq<nat>, debugData: Debug)
      ensures this.functionData == functionData && this.symbolAddresses == symbolAddresses
      ensures this.debugData == debugData
    {
      this.functionData, this.symbolAddresses, this.debugData := functionData, symbolAddresses, debugData;
    }

    method NextWords(count: nat) returns (out: Option<seq<U32>>)
      modifies `functionData
      ensures |old(functionData)| < count ==> out == None && functionData == old(functionData)
      ensures count <= |old(functionData)| ==>
        out == Some(old(functionData)[..count]) && functionData == old(functionData)[count..]
    {
      if |functionData| < count {
        return None;
      }
      out := Some(functionData[..count]);
      functionData := functionData[count..];
    }

    method NextWord() returns (out: Option<U32>)
      modifies `functionData
      ensures old(functionData) == [] ==> out == None && functionData == []
      ensures old(functionData) != [] ==> out == Some(old(functionData)[0]) && functionData == old(functionData)[1..]
    {
      var words := NextWords(1);
      if words.None? {
        return None;
      }
      return Some(words.value[0]);
    }

    /** The locals of the next function. */
    method NextLocals(numLocals: nat) returns (out: Option<Debug>)
      modifies `debugData
      ensures out == if CanSplit(old(debugData), numLocals) then Some(Before(old(debugData), numLocals)) else None
      ensures debugData ==
        if CanSplit(old(debugData), numLocals) then Behind(old(debugData), numLocals) else old(debugData)
    {
      if debugData.locals.None? {
        return Some(debugData);
      }
      if |debugData.locals.value| < numLocals {
        return None;
      }
      out := Some(Before(debugData, numLocals));
      debugData := Behind(debugData, numLocals);
    }

    /** The spans of the eight kinds of edges. */
    method NextSpans() returns (out: Option<seq<seq<U32>>>)
      modifies `functionData
      ensures match ReadKinds(old(functionData), 0)
        case Fail => out == None
        case Read(kinds, rest) => out.Some? && SpansHold(out.value, kinds) && functionData == rest
    {
      var spans: seq<seq<U32>> := [];
      ghost var kinds: seq<seq<RawEdge>> := [];
      ghost var all := ReadKinds(functionData, 0);
      NoKindsBefore(all);
      for k := 0 to KINDS
        invariant |spans| == k && SpansHold(spans, kinds)
        invariant all == PrependKinds(kinds, ReadKinds(functionData, k))
      {
        NextKindRead(kinds, functionData, k);
        var span := NextSpan(k);
        if span.None? {
          return None;
        }
        MoreSpans(spans, kinds, span.value);
        kinds := kinds + [EdgesOf(Arity(k), span.value, 0)];
        spans := spans + [span.value];
      }
      EmptyUnit(kinds);
      out := Some(spans);
    }

    /** The five words before the edges, and the checks on them. */
    method NextHeader() returns (out: Option<Header>)
      modifies `functionData
      ensures
        var ws := old(functionData);
        if HeaderIsGood(ws, symbolAddresses)
        then out == Some(Header(ws[0], ws[1], ws[2], ws[3], ws[4], symbolAddresses[ws[0]])) && functionData == ws[5..]
        else out == None
    {
      var names := NextWords(3);
      if names.None? {
        return None;
      }
      var symbolIdx := names.value[0];
      if symbolIdx >= |symbolAddresses| || !Packable(Symbol(symbolAddresses[symbolIdx])) {
        return None;
      }
      var counts := NextWords(2);
      if counts.None? || counts.value[1] > counts.value[0] {
        return None;
      }
      var function_ := symbolAddresses[symbolIdx];
      out := Some(Header(symbolIdx, names.value[1], names.value[2], counts.value[0], counts.value[1], function_));
    }

    /** One turn of the loop over functions; any error ends the reading. */
    method NextFunction() returns (out: Option<FunctionInfo>)
      modifies `functionData, `debugData
      ensures FunctionRead(old(functionData), old(debugData), symbolAddresses, out, functionData, debugData)
    {
      hide ReadKinds, SpansHold, StringAt;
      var header := NextHeader();
      if header.None? {
        return None;
      }
      var h := header.value;
      var debug := NextLocals(h.numLocals);
      if debug.None? {
        return None;
      }
      var component, version := StringOf(debug.value, h.component), StringOf(debug.value, h.version);
      if component.None? || version.None? {
        return None;
      }
      var spans := NextSpans();
      if spans.None? {
        return None;
      }
      var sbom := Sbom(component.value, version.value);
      out := Some(FunctionInfo(h.function_, h.numLocals, h.numAllocas, debug.value, sbom, spans.value));
    }

    /** The loop over the functions of a file: all of them are handed out, or there is an error. */
    method ReadFunctions(numFunctions: nat) returns (infos: seq<FunctionInfo>, ok: bool)
      modifies `functionData, `debugData
      ensures FunctionsRead(numFunctions, old(functionData), old(debugData), symbolAddresses, infos, ok, functionData)
    {
      hide *;
      infos, ok := [], true;
      ghost var ws0, d0 := functionData, debugData;
      ghost var rs := NothingRead(numFunctions, ws0, d0, symbolAddresses);
      ghost var left := numFunctions;
      for i := 0 to numFunctions
        invariant ok && left == numFunctions - i
        invariant ReadSoFar(numFunctions, ws0, d0, symbolAddresses, rs, infos, left, functionData, debugData)
      {
        ghost var ws, d := functionData, debugData;
        var info := NextFunction();
        rs := NextRead(numFunctions, ws0, d0, symbolAddresses, rs, infos, left, ws, d, info, functionData, debugData);
        if info.None? {
          ok := false;
          return;
        }
        infos := infos + [info.value];
        left := left - 1;
      }
      AllRead(numFunctions, ws0, d0, symbolAddresses, rs, infos, functionData, debugData);
    }

    method NextSpan(k: nat) returns (out: Option<seq<U32>>)
      requires k < KINDS
      modifies `functionData
      ensures
        var ws := old(functionData);
        if ws == [] || |ws| - 1 < Size(Arity(k), ws[0]) then out == None
        else (out == Some(ws[1..][..Size(Arity(k), ws[0])]) && functionData == ws[1..][Size(Arity(k), ws[0])..]
              && WholeEdges(Arity(k), out.value))
    {
      var edgeCount := NextWord();
      if edgeCount.None? {
        return None;
      }
      out := NextWords(Size(Arity(k), edgeCount.value));
      if out.Some? {
        SizeIsWhole(Arity(k), edgeCount.value, out.value);
      }
    }
  }

  /** The numbers at the start of a function, and its address. */
  datatype Header = Header(
    symbolIdx: U32, component: U32, version: U32, numLocals: U32, numAllocas: U32, function_: nat
  )

  predicate HeaderIsGood(ws: seq<U32>, symbols: seq<nat>) {
    |ws| >= 5 && ws[0] < |symbols| && Packable(Symbol(symbols[ws[0]])) && ws[4] <= ws[3]
  }

  /** The records that are read when every record is accepted in turn. */
  function ReadAll(count: nat, ws: seq<U32>, d: Debug, symbols: seq<nat>): Parsed<seq<Record>> {
    if count == 0 then Read([], ws)
    else
      match ReadRecord(ws)
      case Fail => Fail
      case Read(r, rest) =>
        if !Accepts(r, d, symbols) then Fail
        else PrependRecords([r], ReadAll(count - 1, rest, Behind(d, r.numLocals), symbols))
  }

  function PrependRecords(rs: seq<Record>, r: Parsed<seq<Record>>): Parsed<seq<Record>> {
    if r.Fail? then Fail else Read(rs + r.value, r.rest)
  }

  lemma NoRecordsBefore(r: Parsed<seq<Record>>)
    ensures PrependRecords([], r) == r
  {
    if r.Read? {
      EmptyUnit(r.value);
    }
  }

  lemma NextRecordRead(rs: seq<Record>, count: nat, ws: seq<U32>, d: Debug, symbols: seq<nat>)
    requires count > 0
    ensures
      var all := PrependRecords(rs, ReadAll(count, ws, d, symbols));
      match ReadRecord(ws)
      case Fail => all == Fail
      case Read(r, rest) =>
        all ==
          if Accepts(r, d, symbols) then
            PrependRecords(rs + [r], ReadAll(count - 1, rest, Behind(d, r.numLocals), symbols))
               else Fail
  {
    var first := ReadRecord(ws);
    if first.Read? && Accepts(first.value, d, symbols) {
      var others := ReadAll(count - 1, first.rest, Behind(d, first.value.numLocals), symbols);
      if others.Read? {
        Associative(rs, [first.value], others.value);
      }
    }
  }

  /** The locals that are left when `rs` have been read. */
  function BehindAll(d: Debug, rs: seq<Record>): Option<Debug> {
    if rs == [] then Some(d)
    else
      var before := BehindAll(d, rs[..|rs| - 1]);
      if before.Some? && CanSplit(before.value, rs[|rs| - 1].numLocals)
      then Some(Behind(before.value, rs[|rs| - 1].numLocals))
      else None
  }

  lemma BehindOneMore(d: Debug, rs: seq<Record>, r: Record)
    ensures BehindAll(d, rs + [r]) ==
      if BehindAll(d, rs).Some? && CanSplit(BehindAll(d, rs).value, r.numLocals)
      then Some(Behind(BehindAll(d, rs).value, r.numLocals)) else None
  {
    assert (rs + [r])[..|rs|] == rs;
  }

  /** Function `j` was handed out as `info`. */
  ghost predicate HandedOut(info: FunctionInfo, rs: seq<Record>, j: nat, d: Debug, symbols: seq<nat>)
    requires j < |rs|
  {
    var here := BehindAll(d, rs[..j]);
    here.Some? && Accepts(rs[j], here.value, symbols) && Shows(info, rs[j], here.value, symbols)
  }

  ghost predicate AllHandedOut(infos: seq<FunctionInfo>, rs: seq<Record>, d: Debug, symbols: seq<nat>) {
    && |infos| == |rs|
    && forall j {:trigger HandedOut(infos[j], rs, j, d, symbols)} | 0 <= j < |infos| ::
      HandedOut(infos[j], rs, j, d, symbols)
  }

  lemma OneMoreHandedOut(
      infos: seq<FunctionInfo>, rs: seq<Record>, info: FunctionInfo, r: Record, d: Debug, symbols: seq<nat>)
    requires AllHandedOut(infos, rs, d, symbols)
    requires
      var here := BehindAll(d, rs);
      here.Some? && Accepts(r, here.value, symbols) && Shows(info, r, here.value, symbols)
    ensures AllHandedOut(infos + [info], rs + [r], d, symbols)
  {
    forall j | 0 <= j < |infos| + 1 ensures HandedOut((infos + [info])[j], rs + [r], j, d, symbols) {
      assert (rs + [r])[..j] == rs[..j];
      if j < |infos| {
        assert HandedOut(infos[j], rs, j, d, symbols);
      } else {
        assert rs[..j] == rs;
      }
    }
  }

  /** What one turn of the loop does: the next record is handed out, or there is an error. */
  ghost predicate FunctionRead(
    ws: seq<U32>, d: Debug, symbols: seq<nat>, out: Option<FunctionInfo>, ws': seq<U32>, d': Debug)
  {
    match ReadRecord(ws)
    case Fail => out == None
    case Read(r, rest) =>
      if Accepts(r, d, symbols)
      then out.Some? && Shows(out.value, r, d, symbols) && ws' == rest && d' == Behind(d, r.numLocals)
      else out == None
  }

  /** What the whole loop does. */
  ghost predicate FunctionsRead(
    count: nat, ws: seq<U32>, d: Debug, symbols: seq<nat>, infos: seq<FunctionInfo>, ok: bool, ws': seq<U32>)
  {
    match ReadAll(count, ws, d, symbols)
    case Fail => !ok
    case Read(rs, rest) => ok && AllHandedOut(infos, rs, d, symbols) && ws' == rest
  }

  /** Reading `count` functions from `ws0` has handed out `rs`, and goes on with `left` functions from `ws`. */
  ghost predicate ReadSoFar(
    count: nat, ws0: seq<U32>, d0: Debug, symbols: seq<nat>, rs: seq<Record>, infos: seq<FunctionInfo>, left: nat,
    ws: seq<U32>, d: Debug)
  {
    && AllHandedOut(infos, rs, d0, symbols)
    && BehindAll(d0, rs) == Some(d)
    && ReadAll(count, ws0, d0, symbols) == PrependRecords(rs, ReadAll(left, ws, d, symbols))
  }

  lemma NothingRead(count: nat, ws: seq<U32>, d: Debug, symbols: seq<nat>) returns (rs: seq<Record>)
    ensures ReadSoFar(count, ws, d, symbols, rs, [], count, ws, d)
  {
    rs := [];
    NoRecordsBefore(ReadAll(count, ws, d, symbols));
  }

  lemma NextRead(
      count: nat, ws0: seq<U32>, d0: Debug, symbols: seq<nat>, rs: seq<Record>, infos: seq<FunctionInfo>, left: nat,
      ws: seq<U32>, d: Debug, out: Option<FunctionInfo>, ws': seq<U32>, d': Debug) returns (rs': seq<Record>)
    requires ReadSoFar(count, ws0, d0, symbols, rs, infos, left, ws, d) && left > 0
    requires FunctionRead(ws, d, symbols, out, ws', d')
    ensures out.None? ==> FunctionsRead(count, ws0, d0, symbols, infos, false, ws')
    ensures out.Some? ==> ReadSoFar(count, ws0, d0, symbols, rs', infos + [out.value], left - 1, ws', d')
  {
    NextRecordRead(rs, left, ws, d, symbols);
    rs' := rs;
    if out.Some? {
      var r := ReadRecord(ws).value;
      OneMoreHandedOut(infos, rs, out.value, r, d0, symbols);
      BehindOneMore(d0, rs, r);
      rs' := rs + [r];
    }
  }

  lemma AllRead(
      count: nat, ws0: seq<U32>, d0: Debug, symbols: seq<nat>, rs: seq<Record>, infos: seq<FunctionInfo>,
      ws: seq<U32>, d: Debug)
    requires ReadSoFar(count, ws0, d0, symbols, rs, infos, 0, ws, d)
    ensures FunctionsRead(count, ws0, d0, symbols, infos, true, ws)
  {
    EmptyUnit(rs);
  }

  lemma MoreSpans(spans: seq<seq<U32>>, kinds: seq<seq<RawEdge>>, span: seq<U32>)
    requires SpansHold(spans, kinds) && WholeEdges(Arity(|spans|), span)
    ensures SpansHold(spans + [span], kinds + [EdgesOf(Arity(|spans|), span, 0)])
  {
    var spans', kinds' := spans + [span], kinds + [EdgesOf(Arity(|spans|), span, 0)];
    forall i | 0 <= i < |spans'| ensures SpanHolds(spans'[i], i, kinds'[i]) {
      assert i < |spans| ==> SpanHolds(spans[i], i, kinds[i]);
    }
  }
}
