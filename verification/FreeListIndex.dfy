/** The map from chunk sizes to the 61 free lists. */
module FreeListIndex {
  const UNIQUE_THRESHOLD := 32
  const HUGE_THRESHOLD := 256
  const FL_COMPRESSION := 8
  const N_HBLK_FLS := 60

  /** `GC_hblk_fl_from_blocks`. */
  function FlFromBlocks(n: nat): (i: nat)
    ensures i <= N_HBLK_FLS
  {
    if n <= UNIQUE_THRESHOLD then n
    else if n >= HUGE_THRESHOLD then N_HBLK_FLS
    else (n - UNIQUE_THRESHOLD) / FL_COMPRESSION + UNIQUE_THRESHOLD
  }

  /** The sizes filed on list i are exactly one interval. */
  lemma SizesOnList(n: nat, i: nat)
    requires i <= N_HBLK_FLS
    ensures FlFromBlocks(n) == i <==>
              if i < 32 then n == i
              else if i < 60 then 32 + 8 * (i - 32) <= n < 40 + 8 * (i - 32)
              else n >= 256
  {
  }

  lemma FlMonotone(m: nat, n: nat)
    requires m <= n
    ensures FlFromBlocks(m) <= FlFromBlocks(n)
  {
  }

  /** A list holds chunks of one size only if and only if it lies strictly below
      the unique threshold: list 32 already mixes sizes 32 to 39. */
  lemma UniformLists(i: nat)
    requires i <= N_HBLK_FLS
    ensures (forall m: nat, n: nat :: FlFromBlocks(m) == i == FlFromBlocks(n) ==> m == n) <==> i < 32
  {
    if i == N_HBLK_FLS {
      assert FlFromBlocks(256) == i == FlFromBlocks(257);
    } else if i >= UNIQUE_THRESHOLD {
      var first := UNIQUE_THRESHOLD + FL_COMPRESSION * (i - UNIQUE_THRESHOLD);
      assert FlFromBlocks(first) == i == FlFromBlocks(first + 7);
    }
  }

  /** Every larger chunk is found on the same list or a later one, and on a uniform
      list only by being exactly as large. */
  lemma LargerChunksAreLater(need: nat, n: nat)
    ensures n >= need ==> FlFromBlocks(n) >= FlFromBlocks(need)
    ensures n >= need && FlFromBlocks(n) == FlFromBlocks(need) < UNIQUE_THRESHOLD ==> n == need
  {
    if n >= need {
      FlMonotone(need, n);
    }
  }
}
