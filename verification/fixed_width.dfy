/** The fixed-width integer types of the C# code and the unchecked casts between them. */
module FixedWidth {

  const TwoTo32: int := 0x1_0000_0000
  const Int32Max: int := 0x7FFF_FFFF

  /** C# `int`. */
  newtype int32 = x: int | -0x8000_0000 <= x < 0x8000_0000

  /** C# `uint`. */
  newtype uint32 = x: int | 0 <= x < 0x1_0000_0000

  /** The unchecked cast `(int)u`: the same 32 bits read as two's complement. */
  function ToInt32(u: uint32): (r: int32)
    ensures 0 <= r as int ==> r as int == u as int
    ensures r < 0 ==> r as int == u as int - TwoTo32
    ensures (r as int - u as int) % TwoTo32 == 0
  {
    if u as int <= Int32Max then u as int as int32 else (u as int - TwoTo32) as int32
  }

  /** The inverse cast `(uint)i`. */
  function ToUInt32(i: int32): (r: uint32)
    ensures (r as int - i as int) % TwoTo32 == 0
  {
    if i >= 0 then i as int as uint32 else (i as int + TwoTo32) as uint32
  }

  /** Reinterpreting a value as signed and back gives back the same bits, in both directions. */
  lemma ReinterpretRoundTrip(u: uint32, i: int32)
    ensures ToUInt32(ToInt32(u)) == u
    ensures ToInt32(ToUInt32(i)) == i
  {
  }

  /** The all-ones pattern is -1, the "unlimited instances" sentinel of a pipe. */
  lemma AllOnesIsMinusOne()
    ensures ToInt32(0xFFFF_FFFF) == -1
    ensures ToInt32(0x7FFF_FFFF) == 0x7FFF_FFFF
  {
  }
}
