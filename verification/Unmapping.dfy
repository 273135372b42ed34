/** Returning memory to the operating system: unmapping stale chunks, and merging
    neighbours of which one is mapped and the other is not. */
module Unmapping {
  import opened FreeListIndex
  import opened Sequences
  import opened Chunks

  // ---- GC_unmap_old ----

  ghost function UnmapList(s: Heap, i: nat, k: nat, stale: set<nat>): (t: Heap)
    requires Inv(s) && i <= N_HBLK_FLS
    decreases |ListOf(s, i)| - k
  {
    if k >= |ListOf(s, i)| then s
    else UnmapList(UnmapOne(s, i, k, stale), i, k + 1, stale)
  }

  ghost function UnmapOne(s: Heap, i: nat, k: nat, stale: set<nat>): (t: Heap)
    requires Stands(s, i, k)
    ensures Inv(t) && t.lists == s.lists
  {
    var h := ChunkAt(s, i, k);
    SetUnmappedKeeps(s, h, true, 0, 0);
    if !s.chunks[h].core.unmapped && h in stale then SetUnmapped(s, h, true) else s
  }

  /** `GC_unmap_old` from list i on; stale holds the chunks that its age test selects. */
  ghost function UnmapOld(s: Heap, i: nat, stale: set<nat>): (t: Heap)
    requires Inv(s)
    decreases N_HBLK_FLS + 1 - i
  {
    if i > N_HBLK_FLS then s
    else
      UnmapListKeeps(s, i, 0, stale);
      UnmapOld(UnmapList(s, i, 0, stale), i + 1, stale)
  }

  /** t is s with some stale mapped free chunks unmapped. */
  ghost predicate UnmappedSome(s: Heap, t: Heap, stale: set<nat>) {
    && Inv(t) && t.lists == s.lists && SameCover(s.chunks, t.chunks)
    && (forall f :: f in s.chunks <==> f in t.chunks)
    && (forall f :: f in s.chunks && t.chunks[f] != s.chunks[f] ==>
          && IsFree(s, f) && f in stale && !s.chunks[f].core.unmapped
          && t.chunks[f] == Chunk(s.chunks[f].n, Free, Core(s.chunks[f].core.sz, true, s.chunks[f].core.free)))
    && FreeBlocks(t) == FreeBlocks(s) && TotalBlocks(t) == TotalBlocks(s)
    && t.large == s.large && t.dropped == s.dropped && t.drops == s.drops
    && (MappingAgrees(s) ==> MappingAgrees(t))
  }

  lemma UnmappedNone(s: Heap, stale: set<nat>)
    requires Inv(s)
    ensures UnmappedSome(s, s, stale)
  {
  }

  lemma UnmappedCompose(s: Heap, t: Heap, u: Heap, stale: set<nat>)
    requires UnmappedSome(s, t, stale) && UnmappedSome(t, u, stale)
    ensures UnmappedSome(s, u, stale)
  {
    hide InvExcept, SameCover, MappingAgrees, Weigh;
    CoverTransitive(s.chunks, t.chunks, u.chunks);
  }

  lemma UnmapOneKeeps(s: Heap, i: nat, k: nat, stale: set<nat>)
    requires Stands(s, i, k)
    ensures UnmappedSome(s, UnmapOne(s, i, k, stale), stale)
    ensures var h, t := ChunkAt(s, i, k), UnmapOne(s, i, k, stale);
      h in t.chunks && (t.chunks[h].core.unmapped <==> s.chunks[h].core.unmapped || h in stale)
  {
    UnmappedNone(s, stale);
    hide UnmappedSome, Filed, Tiled, Tagged;
    var h := ChunkAt(s, i, k);
    if !s.chunks[h].core.unmapped && h in stale {
      UnmapStale(s, h, stale);
    }
  }

  lemma UnmapStale(s: Heap, h: nat, stale: set<nat>)
    requires Inv(s) && IsFree(s, h) && !s.chunks[h].core.unmapped && h in stale
    ensures UnmappedSome(s, SetUnmapped(s, h, true), stale)
  {
    hide InvExcept, SameCover, MappingAgrees, Weigh, Blocks;
    SetUnmappedKeeps(s, h, true, 0, 0);
    SameSizeWeighs(s.chunks, h, SetUnmapped(s, h, true).chunks[h]);
    if MappingAgrees(s) {
      ChunksTiled(s);
      UnmappedMapping(s, h, true);
    }
    ChunkFacts(s, h, 0, 0);
  }

  lemma UnmapListUnfolds(s: Heap, i: nat, k: nat, stale: set<nat>)
    requires Inv(s) && i <= N_HBLK_FLS
    ensures UnmapList(s, i, k, stale) ==
              if k >= |ListOf(s, i)| then s else UnmapList(UnmapOne(s, i, k, stale), i, k + 1, stale)
  {
    hide InvExcept, UnmapOne, ListOf;
  }

  lemma {:induction false} UnmapListKeeps(s: Heap, i: nat, k: nat, stale: set<nat>)
    requires Inv(s) && i <= N_HBLK_FLS
    ensures UnmappedSome(s, UnmapList(s, i, k, stale), stale)
    decreases |ListOf(s, i)| - k
  {
    hide InvExcept, UnmappedSome, UnmapOne, UnmapList, FlFromBlocks;
    UnmapListUnfolds(s, i, k, stale);
    if k < |ListOf(s, i)| {
      var t := UnmapOne(s, i, k, stale);
      UnmapOneKeeps(s, i, k, stale);
      UnmapListKeeps(t, i, k + 1, stale);
      UnmappedCompose(s, t, UnmapList(t, i, k + 1, stale), stale);
    } else {
      UnmappedNone(s, stale);
    }
  }

  lemma UnmappedInv(s: Heap, t: Heap, stale: set<nat>)
    requires UnmappedSome(s, t, stale)
    ensures Inv(t)
  {
  }

  /** Unmapping keeps every invariant, the counts and the lists. */
  lemma {:induction false} UnmapOldKeeps(s: Heap, i: nat, stale: set<nat>)
    requires Inv(s)
    ensures UnmappedSome(s, UnmapOld(s, i, stale), stale)
    decreases N_HBLK_FLS + 1 - i
  {
    UnmappedNone(s, stale);
    hide InvExcept, UnmappedSome;
    if i <= N_HBLK_FLS {
      UnmapListKeeps(s, i, 0, stale);
      var t := UnmapList(s, i, 0, stale);
      UnmappedInv(s, t, stale);
      UnmapOldKeeps(t, i + 1, stale);
      UnmappedCompose(s, t, UnmapOld(t, i + 1, stale), stale);
    }
  }

  lemma {:induction false} UnmapListReaches(s: Heap, i: nat, k: nat, stale: set<nat>, j: nat)
    requires Stands(s, i, j) && k <= j && ChunkAt(s, i, j) in stale
    ensures var h, t := ChunkAt(s, i, j), UnmapList(s, i, k, stale);
      h in t.chunks && t.chunks[h].core.unmapped
    decreases j - k
  {
    UnmapOneKeeps(s, i, k, stale);
    var t, h := UnmapOne(s, i, k, stale), ChunkAt(s, i, j);
    UnmapListKeeps(t, i, k + 1, stale);
    assert t.chunks[h].n == s.chunks[h].n;
    hide Filed, Tiled, SameCover, UnmapOne, MappingAgrees, Weigh, FlFromBlocks;
    if k < j {
      UnmapListReaches(t, i, k + 1, stale, j);
    }
  }

  lemma UnmappedChunk(s: Heap, t: Heap, stale: set<nat>, h: nat)
    requires UnmappedSome(s, t, stale) && IsFree(s, h)
    ensures IsFree(t, h) && t.chunks[h].n == s.chunks[h].n
    ensures s.chunks[h].core.unmapped ==> t.chunks[h].core.unmapped
    ensures t.chunks[h].core.unmapped ==> s.chunks[h].core.unmapped || h in stale
  {
    hide InvExcept, SameCover, Weigh;
  }

  /** A free chunk ends up unmapped exactly when it was so before or is stale. */
  lemma {:induction false} UnmapOldReaches(s: Heap, i: nat, stale: set<nat>, h: nat)
    requires Inv(s) && IsFree(s, h) && FlFromBlocks(s.chunks[h].n) >= i
    ensures var t := UnmapOld(s, i, stale);
      h in t.chunks && (t.chunks[h].core.unmapped <==> s.chunks[h].core.unmapped || h in stale)
    decreases N_HBLK_FLS + 1 - i
  {
    hide InvExcept, UnmappedSome, UnmapList, FlFromBlocks;
    var t := UnmapList(s, i, 0, stale);
    UnmapListKeeps(s, i, 0, stale);
    UnmappedInv(s, t, stale);
    UnmappedChunk(s, t, stale, h);
    if FlFromBlocks(s.chunks[h].n) == i {
      UnmapOldKeeps(t, i + 1, stale);
      UnmappedChunk(t, UnmapOld(t, i + 1, stale), stale, h);
      if h in stale {
        InItsList(s, h);
        UnmapListReaches(s, i, 0, stale, IndexOf(ListOf(s, i), h));
      }
    } else {
      UnmapOldReaches(t, i + 1, stale, h);
    }
  }
}
