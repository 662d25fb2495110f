/** The three bit-flag types of the GPIO character-device interface
    (version 1 of the Linux uAPI, `include/uapi/linux/gpio.h`). Each flag
    type is a 32-bit word; flags combine by bitwise or. */
module Flags {

  /** `Flags`: the state of a line as the kernel reports it. */
  const KERNEL: bv32 := 0x01
  const OUTPUT: bv32 := 0x02
  const ACTIVE_LOW: bv32 := 0x04
  const OPEN_DRAIN: bv32 := 0x08
  const OPEN_SOURCE: bv32 := 0x10

  /** `RequestFlags`: the mode a handle request asks for. */
  const REQUEST_INPUT: bv32 := 0x01
  const REQUEST_OUTPUT: bv32 := 0x02
  const REQUEST_ACTIVE_LOW: bv32 := 0x04
  const REQUEST_OPEN_DRAIN: bv32 := 0x08
  const REQUEST_OPEN_SOURCE: bv32 := 0x10

  /** `EventRequestFlags`: the edges an event request reports. */
  const RISING_EDGE: bv32 := 0x01
  const FALLING_EDGE: bv32 := 0x02
  const BOTH_EDGES: bv32 := 0x03

  /** A flag word with exactly one bit set. */
  predicate SingleBit(f: bv32) {
    f != 0 && f & (f - 1) == 0
  }

  /** Every bit of `sub` is also set in `bits` (bitflags' `contains`). */
  predicate Contains(bits: bv32, sub: bv32) {
    bits & sub == sub
  }

  /** Each named line flag, request flag and single-edge flag is one bit of
      its word, and the named flags of one type are pairwise distinct bits. */
  lemma NamedFlagsAreDistinctBits()
    ensures SingleBit(KERNEL) && SingleBit(OUTPUT) && SingleBit(ACTIVE_LOW)
    ensures SingleBit(OPEN_DRAIN) && SingleBit(OPEN_SOURCE)
    ensures SingleBit(REQUEST_INPUT) && SingleBit(REQUEST_OUTPUT) && SingleBit(REQUEST_ACTIVE_LOW)
    ensures SingleBit(REQUEST_OPEN_DRAIN) && SingleBit(REQUEST_OPEN_SOURCE)
    ensures SingleBit(RISING_EDGE) && SingleBit(FALLING_EDGE)
    ensures KERNEL & OUTPUT == 0 && KERNEL & ACTIVE_LOW == 0 && KERNEL & OPEN_DRAIN == 0
    ensures KERNEL & OPEN_SOURCE == 0 && OUTPUT & ACTIVE_LOW == 0 && OUTPUT & OPEN_DRAIN == 0
    ensures OUTPUT & OPEN_SOURCE == 0 && ACTIVE_LOW & OPEN_DRAIN == 0
    ensures ACTIVE_LOW & OPEN_SOURCE == 0 && OPEN_DRAIN & OPEN_SOURCE == 0
    ensures REQUEST_INPUT & REQUEST_OUTPUT == 0 && REQUEST_INPUT & REQUEST_ACTIVE_LOW == 0
    ensures REQUEST_INPUT & REQUEST_OPEN_DRAIN == 0 && REQUEST_INPUT & REQUEST_OPEN_SOURCE == 0
    ensures REQUEST_OUTPUT & REQUEST_ACTIVE_LOW == 0 && REQUEST_OUTPUT & REQUEST_OPEN_DRAIN == 0
    ensures REQUEST_OUTPUT & REQUEST_OPEN_SOURCE == 0 && REQUEST_ACTIVE_LOW & REQUEST_OPEN_DRAIN == 0
    ensures REQUEST_ACTIVE_LOW & REQUEST_OPEN_SOURCE == 0 && REQUEST_OPEN_DRAIN & REQUEST_OPEN_SOURCE == 0
    ensures RISING_EDGE & FALLING_EDGE == 0
  {
  }

  /** The request constants and the line-state constants share bit
      positions: OUTPUT, ACTIVE_LOW, OPEN_DRAIN and OPEN_SOURCE have the same
      value in both, and INPUT has the value of KERNEL. */
  lemma RequestBitsMatchLineBits()
    ensures REQUEST_OUTPUT == OUTPUT && REQUEST_ACTIVE_LOW == ACTIVE_LOW
    ensures REQUEST_OPEN_DRAIN == OPEN_DRAIN && REQUEST_OPEN_SOURCE == OPEN_SOURCE
    ensures REQUEST_INPUT == KERNEL
  {
  }

  /** BOTH_EDGES is exactly the union of the two single-edge flags, and the
      edge flags it contains are exactly none, either edge, or both. */
  lemma BothEdgesIsUnion(f: bv32)
    ensures BOTH_EDGES == RISING_EDGE | FALLING_EDGE
    ensures Contains(BOTH_EDGES, RISING_EDGE) && Contains(BOTH_EDGES, FALLING_EDGE)
    ensures Contains(BOTH_EDGES, f) <==> f == 0 || f == RISING_EDGE || f == FALLING_EDGE || f == BOTH_EDGES
  {
  }
}
