/** Numbers in memory, lowest byte first. */
module LittleEndian {

  type Byte = x: nat | x < 0x100

  function Low(x: nat): Byte {
    var r: nat := x % 0x100;
    r
  }

  /** The `n` lowest bytes, lowest first. */
  function Little(x: nat, n: nat): (bs: seq<Byte>)
    ensures |bs| == n
  {
    if n == 0 then [] else [Low(x)] + Little(x / 0x100, n - 1)
  }

  function Value(bs: seq<Byte>): nat {
    if bs == [] then 0 else 0x100 * Value(bs[1..]) + bs[0]
  }

  function Bound(n: nat): (b: nat)
    ensures b > 0
  {
    if n == 0 then 1 else 0x100 * Bound(n - 1)
  }

  lemma {:induction false} ValueOfLittle(x: nat, n: nat)
    requires x < Bound(n)
    ensures Value(Little(x, n)) == x
  {
    if n > 0 {
      ValueOfLittle(x / 0x100, n - 1);
    }
  }

  lemma {:induction false} LittleOfValue(bs: seq<Byte>)
    ensures Value(bs) < Bound(|bs|) && Little(Value(bs), |bs|) == bs
  {
    if bs != [] {
      LittleOfValue(bs[1..]);
      LowestByte(bs[0], Value(bs[1..]));
    }
  }

  lemma LowestByte(b: Byte, rest: nat)
    ensures (0x100 * rest + b) / 0x100 == rest && (0x100 * rest + b) % 0x100 == b
  {
  }
}
