/**
 * Small stand-ins for the editor host's types that the scanner touches:
 * the colour and type tags of a token, and the 32-bit integers that hold
 * positions.
 */
module HostTypes {

  /** The two colours the scanner ever produces. */
  datatype TokenColor = Keyword | Text

  /** The token type tag; `Unknown` is what a fresh token record holds, the scanner only writes `Text`. */
  datatype TokenType = Unknown | Text

  const MinInt32: int := -0x8000_0000
  const MaxInt32: int := 0x7FFF_FFFF

  /** A 32-bit signed integer, the type of the host's positions. */
  newtype int32 = x: int | -0x8000_0000 <= x < 0x8000_0000

  /** Unchecked 32-bit addition as C# performs it: the result wraps around modulo 2^32. */
  function Wrap32(x: int): (r: int32)
    ensures (r as int - x) % 0x1_0000_0000 == 0
    ensures MinInt32 <= x <= MaxInt32 ==> r as int == x
  {
    ((x - MinInt32) % 0x1_0000_0000 + MinInt32) as int32
  }

  /** `Math.Max` on two 32-bit integers. */
  function Max(a: int32, b: int32): (r: int32)
    ensures r >= a && r >= b
    ensures r == a || r == b
  {
    if a >= b then a else b
  }
}
