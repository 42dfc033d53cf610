/**
 The numbers behind the edge metadata: nodes packed into 64-bit words, nodes encoded as 32-bit
 numbers, and zigzag encoding of signed deltas.
 */
module EdgeEncoding {
  import opened MachineWords

  datatype Option<+T> = None | Some(value: T)

  // ---------------------------------------------------------------------------------------
  // Nodes in memory
  // ---------------------------------------------------------------------------------------

  /** The node a packed word stands for. `symbol` is an index when writing and an address when reading. */
  datatype Node = Symbol(symbol: nat) | Local(symbol: nat, idx: nat)

  /** The nodes that have a packed form. */
  predicate Packable(n: Node) {
    n.symbol + 1 < TWO_48 && (n.Local? ==> n.idx + 1 < TWO_16)
  }

  /** `Node::symbol`: None is a failed assertion. The increment wraps around. */
  function PackSymbol(addr: U64): (raw: Option<U64>) {
    var a := (addr + 1) % TWO_64;
    if a / TWO_48 == 0 then Some(a * TWO_16) else None
  }

  /** `Node::local`. The low 16 bits are free, so the disjunction of the two parts is their sum. */
  function PackLocal(symbol: U64, idx: U64): (raw: Option<U64>) {
    var s, i := (symbol + 1) % TWO_64, (idx + 1) % TWO_64;
    if s / TWO_48 == 0 && i < TWO_16 then Some(s * TWO_16 + i) else None
  }

  function Pack(n: Node): Option<U64>
    requires n.symbol < TWO_64 && (n.Local? ==> n.idx < TWO_64)
  {
    if n.Symbol? then PackSymbol(n.symbol) else PackLocal(n.symbol, n.idx)
  }

  /** `local_idx()` and `symbol()` of a non-null node. */
  function Unpack(raw: U64): Node
    requires raw >= TWO_16
  {
    var symbol, local := raw / TWO_16 - 1, raw % TWO_16;
    if local == 0 then Symbol(symbol) else Local(symbol, local - 1)
  }

  /** Packable nodes survive packing, as non-null words, and these are all the words that unpack to them. */
  lemma PackUnpack(n: Node, raw: U64)
    requires Packable(n)
    ensures Pack(n) == Some(raw) <==> raw >= TWO_16 && Unpack(raw) == n
  {
    if n.Local? {
      assert Pack(n) == Some((n.symbol + 1) * TWO_16 + (n.idx + 1));
    } else {
      assert Pack(n) == Some((n.symbol + 1) * TWO_16);
    }
    assert raw == raw / TWO_16 * TWO_16 + raw % TWO_16;
  }

  /** Outside of that, packing fails, except where the increments wrap: there the node changes. */
  lemma PackOutside(n: Node)
    requires n.symbol < TWO_64 && (n.Local? ==> n.idx < TWO_64) && !Packable(n)
    ensures
      || Pack(n) == None || n.symbol == TWO_64 - 1
      || (n.Local? && n.idx == TWO_64 - 1 && Pack(n) == Pack(Symbol(n.symbol)))
  {
  }

  // ---------------------------------------------------------------------------------------
  // Zigzag
  // ---------------------------------------------------------------------------------------

  /** Conversion to `uint32_t`. */
  function Wrap(x: int): U32 {
    x % TWO_32
  }

  /** Conversion to `int32_t`. */
  function Signed(u: U32): I32 {
    if u < TWO_31 then u else u - TWO_32
  }

  /** Exclusive or with all ones. */
  function Complement(u: U32): U32 {
    TWO_32 - 1 - u
  }

  /** The shift by 31 spreads the sign: the exclusive or is with zero or with all ones. */
  function ZigzagEncode(x: I32): U32 {
    if x < 0 then Complement(Wrap(2 * x)) else Wrap(2 * x)
  }

  function ZigzagDecode(u: U32): I32 {
    if u % 2 == 1 then Signed(Complement(u / 2)) else Signed(u / 2)
  }

  /** Zigzag is a bijection between the 32-bit integers and the 32-bit words. */
  lemma ZigzagBijection(x: I32, u: U32)
    ensures ZigzagEncode(x) == u <==> ZigzagDecode(u) == x
  {
    if x < 0 {
      assert Wrap(2 * x) == 2 * x + TWO_32;
    }
  }

  /** Small magnitudes get small codes, whatever their sign. */
  lemma ZigzagIsSmall(x: I32)
    ensures ZigzagEncode(x) == if x >= 0 then 2 * x else -2 * x - 1
  {
    if x < 0 {
      assert Wrap(2 * x) == 2 * x + TWO_32;
    }
  }

  /** The doubling is done on `int`: it is defined as long as it does not overflow. */
  predicate DoublingDefined(x: I32) {
    -TWO_31 <= 2 * x < TWO_31
  }

  /** It overflows exactly when 32 bits cannot hold the double. */
  lemma DoublingIsExact(x: I32)
    ensures DoublingDefined(x) <==> Signed(Wrap(2 * x)) == 2 * x
  {
    if x < 0 {
      assert Wrap(2 * x) == 2 * x + TWO_32;
    }
  }

  /** The delta between two numbers below 2^30 keeps the doubling defined. */
  lemma SmallNumbersEncode(a: U32, b: U32)
    requires a < TWO_31 / 2 && b < TWO_31 / 2
    ensures DoublingDefined(Signed(Wrap(a - b)))
  {
    assert Wrap(a - b) == if a >= b then a - b else a - b + TWO_32;
  }

  /** What the reader adds to the previous number is what the writer subtracted. */
  lemma DeltaRoundTrip(n: U32, previous: U32)
    ensures Wrap(previous + Wrap(ZigzagDecode(ZigzagEncode(Signed(Wrap(n - previous)))))) == n
  {
    var d := Signed(Wrap(n - previous));
    ZigzagBijection(d, ZigzagEncode(d));
    assert Wrap(n - previous) == if n >= previous then n - previous else n - previous + TWO_32;
  }

  // ---------------------------------------------------------------------------------------
  // Nodes in the stream
  // ---------------------------------------------------------------------------------------

  /** `encode_node`: the result is truncated to 32 bits. */
  function EncodeNode(n: Node): U32 {
    if n.Local? then Wrap(n.idx % TWO_16 * 2) else Wrap(n.symbol * 2 + 1)
  }

  /** A writer's node, once the linker has put addresses in the symbol table. */
  function Relocate(n: Node, symbols: seq<nat>): Node
    requires n.symbol < |symbols|
  {
    if n.Local? then Local(symbols[n.symbol], n.idx) else Symbol(symbols[n.symbol])
  }

  /** `decode_node`: None is an error or a failed assertion of the node and edge constructors. */
  function DecodeNode(number: U32, function_: nat, symbols: seq<nat>): Option<Node> {
    if number % 2 == 1 then
      if number / 2 < |symbols| && Packable(Symbol(symbols[number / 2])) then Some(Symbol(symbols[number / 2]))
      else None
    else if Packable(Local(function_, number / 2)) then Some(Local(function_, number / 2)) else None
  }

  /** Odd numbers are those of symbols and even ones those of locals; whatever the node type cannot hold is an error. */
  lemma DecodeNodeIff(number: U32, function_: nat, symbols: seq<nat>, n: Node)
    ensures DecodeNode(number, function_, symbols) == Some(n) <==>
      && n.symbol + 1 < 0x1_0000_0000_0000
      && match n
         case Symbol(address) => exists i :: 0 <= i < |symbols| && number == 2 * i + 1 && symbols[i] == address
         case Local(f, idx) => f == function_ && number == 2 * idx && idx < 65535
  {
    if number % 2 == 1 && number / 2 < |symbols| {
      assert number == 2 * (number / 2) + 1;
      assert forall i: nat | number == 2 * i + 1 :: i == number / 2;
    }
  }

  /** A symbol number survives the truncation to 32 bits exactly when it is below 2^31. */
  lemma EncodeSymbolIff(symbol: nat)
    ensures EncodeNode(Symbol(symbol)) % 2 == 1
    ensures EncodeNode(Symbol(symbol)) / 2 == symbol <==> symbol < TWO_31
  {
  }

  /** The stream does not hold the function of a local: a local node survives exactly in its own function. */
  lemma NodeRoundTrip(n: Node, function_: nat, symbols: seq<nat>)
    requires Packable(n) && Packable(Symbol(function_))
    requires n.symbol < |symbols| && n.symbol < TWO_31 && Packable(Symbol(symbols[n.symbol]))
    ensures DecodeNode(EncodeNode(n), function_, symbols) == Some(Relocate(n, symbols))
      <==> (n.Local? ==> symbols[n.symbol] == function_)
  {
  }
}
