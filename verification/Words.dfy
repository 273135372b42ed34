/** Machine words and block sizes of the modelled target: 32-bit words and the
    64 KiB heap blocks that the PS Vita build selects. */
module Words {
  const WORD := 0x1_0000_0000
  const SIGN := 0x8000_0000
  const HBLKSIZE := 0x1_0000

  /** Heap blocks in the whole address space, and in half of it. */
  const ADDRESS_BLOCKS := 0x1_0000
  const HALF_SPACE := 0x8000

  /** `(signed_word)x > 0` for a word computed as x. */
  predicate PositiveSigned(x: nat) {
    0 < x % WORD < SIGN
  }

  /** `(signed_word)x < 0` for a word computed as x. */
  predicate NegativeSigned(x: nat) {
    x % WORD >= SIGN
  }

  /** `OBJ_SZ_TO_BLOCKS(sz)`; the addition wraps at the word size. */
  function ObjSzToBlocks(sz: nat): (r: nat)
    ensures r < ADDRESS_BLOCKS
  {
    (sz + HBLKSIZE - 1) % WORD / HBLKSIZE
  }

  /** Away from the wrap-around the result is the least number of blocks that hold sz bytes. */
  lemma ObjSzToBlocksIsCeiling(sz: nat)
    requires sz < WORD
    ensures sz <= WORD - HBLKSIZE ==>
              var n := ObjSzToBlocks(sz); sz <= n * HBLKSIZE < sz + HBLKSIZE
    ensures ObjSzToBlocks(sz) == 0 <==> sz == 0 || sz > WORD - HBLKSIZE
  {
  }

  /** The bytes that a caller asks the allocator for on behalf of lb: rounded up to granules of 8 bytes,
      one more byte added first if interior pointers are recognised everywhere. */
  function RoundedBytes(lb: nat, allInterior: bool): nat {
    (lb + 7 + if allInterior then 1 else 0) % WORD / 8 * 8
  }

  /** Rounding never gives less than was asked for on the sizes that pass the caller's test, but exactly
      this range of them then rounds up to no blocks at all. */
  lemma CallersLetWrap(lb: nat, allInterior: bool)
    requires 0 < lb < WORD
    ensures var rounded := RoundedBytes(lb, allInterior);
      rounded >= lb && ObjSzToBlocks(rounded) == 0 <==>
        WORD - HBLKSIZE < lb + (if allInterior then 1 else 0) <= WORD - 8
  {
  }

  /** The overflow guard on two coalescing free chunks of a and b blocks. */
  lemma CoalescedSizeFits(a: nat, b: nat)
    requires 0 < a < HALF_SPACE && 0 < b < HALF_SPACE
    ensures PositiveSigned(a * HBLKSIZE + b * HBLKSIZE) <==> a + b < HALF_SPACE
  {
  }
}
