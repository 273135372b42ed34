/** The pass that merges free neighbours left apart because one was unmapped. */
module Merging {
  import opened Words
  import opened FreeListIndex
  import opened Sequences
  import opened Chunks
  import opened Freeing

  /** Free chunk h is followed by a free chunk, and together they do not overflow. */
  predicate CanMerge(s: Heap, h: nat) {
    IsFree(s, h) && var g := h + s.chunks[h].n; IsFree(s, g) && s.chunks[h].n + s.chunks[g].n < HALF_SPACE
  }

  /** The mapping state of the merged chunk: that of the larger part, of the successor on a tie. */
  function MergedFlag(k: Chunk, l: Chunk): bool {
    if k.core.unmapped == l.core.unmapped then k.core.unmapped
    else if k.n > l.n then k.core.unmapped
    else l.core.unmapped
  }

  /** `GC_remap` or `GC_unmap` of chunk h without touching its header. */
  function Shift(s: Heap, h: nat, u: bool): Heap
    requires h in s.chunks
  {
    Heap(s.chunks, s.lists,
         if u then s.unmapped + Blocks(h, s.chunks[h].n) else s.unmapped - Blocks(h, s.chunks[h].n),
         s.large, s.dropped, s.drops)
  }

  /** Both parts brought to the merged chunk's mapping state. */
  function Align(s: Heap, h: nat): (t: Heap)
    requires CanMerge(s, h)
    ensures t.chunks.Keys == s.chunks.Keys && t.lists == s.lists
    ensures t.chunks[h].n == s.chunks[h].n
    ensures forall f :: f in s.chunks && f != h ==> t.chunks[f] == s.chunks[f]
  {
    var g := h + s.chunks[h].n;
    var u := MergedFlag(s.chunks[h], s.chunks[g]);
    if s.chunks[h].core.unmapped != u then SetUnmapped(s, h, u)
    else if s.chunks[g].core.unmapped != u then Shift(s, g, u)
    else s
  }

  /** Chunk h, on list i, absorbs its successor and is filed again. */
  function Combine(s: Heap, h: nat, i: nat): (t: Heap)
    requires IsFree(s, h) && IsFree(s, h + s.chunks[h].n) && s.chunks[h].n > 0
    requires |s.lists| == N_HBLK_FLS + 1 && i <= N_HBLK_FLS
  {
    var g := h + s.chunks[h].n;
    Push(Join(Absorb(Take(s, h, i), g), h, g), h)
  }

  /** One merge: h, on list i, absorbs its successor and is filed again. */
  function MergePair(s: Heap, h: nat, i: nat): (t: Heap)
    requires CanMerge(s, h) && s.chunks[h].n > 0 && |s.lists| == N_HBLK_FLS + 1 && i <= N_HBLK_FLS
  {
    Combine(Align(s, h), h, i)
  }

  // ---- One merge ----

  ghost predicate Pair(s: Heap, h: nat, i: nat) {
    Inv(s) && CanMerge(s, h) && i == FlFromBlocks(s.chunks[h].n)
  }

  lemma PairShape(s: Heap, h: nat, i: nat)
    requires Pair(s, h, i)
    ensures h > 0 && s.chunks[h].n > 0 && |s.lists| == N_HBLK_FLS + 1
  {
  }

  /** Facts about one merge. */
  ghost predicate MergedTo(s: Heap, t: Heap, h: nat) {
    && Inv(t) && SameCover(s.chunks, t.chunks)
    && CanMerge(s, h) && Replaced(s.chunks, t.chunks, h, h + s.chunks[h].n + s.chunks[h + s.chunks[h].n].n)
    && t.chunks[h].use.Free? && h + s.chunks[h].n !in t.chunks
    && FreeBlocks(t) == FreeBlocks(s) && TotalBlocks(t) == TotalBlocks(s)
    && t.large == s.large && t.dropped == s.dropped && t.drops == s.drops
  }

  lemma AlignKeeps(s: Heap, h: nat, i: nat)
    requires Pair(s, h, i)
    ensures var t := Align(s, h);
      && Inv(t) && IsFree(t, h) && IsFree(t, h + s.chunks[h].n) && SameCover(s.chunks, t.chunks)
      && FreeBlocks(t) == FreeBlocks(s) && TotalBlocks(t) == TotalBlocks(s)
      && t.large == s.large && t.dropped == s.dropped && t.drops == s.drops
  {
    var g := h + s.chunks[h].n;
    var u := MergedFlag(s.chunks[h], s.chunks[g]);
    assert InvExcept(Shift(s, g, u), 0, 0);
    hide Filed, Tiled, Tagged, FlFromBlocks, Weigh;
    if s.chunks[h].core.unmapped != u {
      SetUnmappedKeeps(s, h, u, 0, 0);
      SameSizeWeighs(s.chunks, h, SetUnmapped(s, h, u).chunks[h]);
    }
  }

  /** Chunk h and its free successor g, h already off its list. */
  lemma PairJoins(s: Heap, h: nat, g: nat)
    requires Inv(s) && Neighbours(s, h, g, g) && s.chunks[h].core.sz == s.chunks[h].n * HBLKSIZE
    requires s.chunks[h].n + s.chunks[g].n < HALF_SPACE
    ensures var t := Push(Join(Absorb(s, g), h, g), h);
      && Inv(t) && SameCover(s.chunks, t.chunks) && Replaced(s.chunks, t.chunks, h, g + s.chunks[g].n)
      && t.chunks[h].use.Free? && g !in t.chunks
      && FreeBlocks(t) == FreeBlocks(s) + s.chunks[h].n && TotalBlocks(t) == TotalBlocks(s)
  {
    var u := Join(Absorb(s, g), h, g);
    AbsorbKeeps(s, h, g, g, u);
    AbsorbReplaces(s, h, g, g);
    hide Filed, Tiled, SameCover, Weigh, FlFromBlocks;
    assert ReadyToFile(u.chunks, h);
    FileResult(s.chunks, u, 0, h, g + s.chunks[g].n);
    assert Credit(u, 0) == u;
  }

  /** The aligned pair with h taken off its list. */
  lemma TakenPair(s: Heap, h: nat, i: nat)
    requires Pair(s, h, i)
    ensures s.chunks[h].n > 0 && |s.lists| == N_HBLK_FLS + 1
    ensures var g, t := h + s.chunks[h].n, Take(Align(s, h), h, i);
      && Inv(t) && Neighbours(t, h, g, g) && t.chunks[h].core.sz == t.chunks[h].n * HBLKSIZE
      && SameCover(Align(s, h).chunks, t.chunks)
      && FreeBlocks(t) == FreeBlocks(s) - s.chunks[h].n && TotalBlocks(t) == TotalBlocks(s)
  {
    assert h > 0 && s.chunks[h].n > 0;
    var s1 := Align(s, h);
    AlignKeeps(s, h, i);
    assert s1.chunks[h].core.sz == s1.chunks[h].n * HBLKSIZE;
    hide Filed, Tiled, SameCover, Align, Weigh, FlFromBlocks;
    TakeKeeps(s1, h, i, 0, 0);
    TakeWeighs(s1, h, i);
  }

  lemma MergePairResult(s: Heap, h: nat, i: nat)
    requires Pair(s, h, i)
    ensures s.chunks[h].n > 0 && |s.lists| == N_HBLK_FLS + 1
    ensures MergedTo(s, MergePair(s, h, i), h)
  {
    hide Filed, Tiled, SameCover, Align, Weigh, FlFromBlocks, Replaced, Join, Push, Absorb;
    var s1, g := Align(s, h), h + s.chunks[h].n;
    AlignKeeps(s, h, i);
    TakenPair(s, h, i);
    var s2 := Take(s1, h, i);
    PairJoins(s2, h, g);
    MergeShape(s, s1, s2, MergePair(s, h, i), h);
    MergeCounters(s, h, i);
  }

  lemma MergeCounters(s: Heap, h: nat, i: nat)
    requires Pair(s, h, i) && s.chunks[h].n > 0 && |s.lists| == N_HBLK_FLS + 1
    ensures var t := MergePair(s, h, i);
      t.large == s.large && t.dropped == s.dropped && t.drops == s.drops
  {
    hide InvExcept, FlFromBlocks;
  }

  lemma MergeShape(s: Heap, s1: Heap, s2: Heap, t: Heap, h: nat)
    requires CanMerge(s, h) && SameCover(s.chunks, s1.chunks) && SameCover(s1.chunks, s2.chunks)
    requires s1.chunks.Keys == s.chunks.Keys && (forall f :: f in s.chunks && f != h ==> s1.chunks[f] == s.chunks[f])
    requires h in s1.chunks && s2.chunks == s1.chunks[h := s1.chunks[h].(use := Taken)]
    requires SameCover(s2.chunks, t.chunks)
    requires Replaced(s2.chunks, t.chunks, h, h + s.chunks[h].n + s.chunks[h + s.chunks[h].n].n)
    ensures SameCover(s.chunks, t.chunks)
    ensures Replaced(s.chunks, t.chunks, h, h + s.chunks[h].n + s.chunks[h + s.chunks[h].n].n)
  {
    hide SameCover;
    CoverTransitive(s.chunks, s1.chunks, s2.chunks);
    CoverTransitive(s.chunks, s2.chunks, t.chunks);
  }

  // ---- What one merge does to the mapping and the lists ----

  /** Where one part is mapped and the other is not, blocks change their mapping only inside the smaller
      part, or the first if they are equal, and the merged chunk is as the other part was. Where both
      are mapped or both are not, no block changes. */
  lemma MergeRemaps(s: Heap, h: nat, i: nat)
    requires Pair(s, h, i)
    ensures s.chunks[h].n > 0 && |s.lists| == N_HBLK_FLS + 1
    ensures var k, l, t := s.chunks[h], s.chunks[h + s.chunks[h].n], MergePair(s, h, i);
      && h in t.chunks
      && t.chunks[h].core.unmapped == (if k.n > l.n then k.core.unmapped else l.core.unmapped)
      && (k.core.unmapped == l.core.unmapped ==> t.unmapped == s.unmapped)
      && forall b: nat :: (b in t.unmapped) != (b in s.unmapped) ==>
           if k.n > l.n then h + k.n <= b < h + k.n + l.n else h <= b < h + k.n
  {
    hide InvExcept, FlFromBlocks, Del, Blocks;
    PairShape(s, h, i);
  }

  /** Both parts leave their lists, and the merged chunk goes to the head of the list of its size. */
  lemma MergeFiles(s: Heap, h: nat, i: nat, j: nat)
    requires Pair(s, h, i) && j <= N_HBLK_FLS
    ensures s.chunks[h].n > 0 && |s.lists| == N_HBLK_FLS + 1 == |MergePair(s, h, i).lists|
    ensures var g := h + s.chunks[h].n;
      MergePair(s, h, i).lists[j] ==
        (if j == FlFromBlocks(s.chunks[h].n + s.chunks[g].n) then [h] else []) + Del(Del(s.lists[j], h), g)
  {
    hide InvExcept, FlFromBlocks, Del, Blocks;
    PairShape(s, h, i);
    var g := h + s.chunks[h].n;
    ListedAtHome(s, h, j);
    ListedAtHome(s, g, j);
    if j != i {
      DelAbsent(s.lists[j], h);
    }
    if j != FlFromBlocks(s.chunks[g].n) {
      NotListed(s, h, g, j);
    }
  }

  lemma ListedAtHome(s: Heap, h: nat, j: nat)
    requires Inv(s) && IsFree(s, h) && j <= N_HBLK_FLS
    ensures FlFromBlocks(s.chunks[h].n) <= N_HBLK_FLS && |s.lists| == N_HBLK_FLS + 1
    ensures h in s.lists[j] <==> j == FlFromBlocks(s.chunks[h].n)
  {
    ChunkFacts(s, h, 0, 0);
    hide Tiled, Tagged, FlFromBlocks;
  }

  lemma NotListed(s: Heap, h: nat, g: nat, j: nat)
    requires j < |s.lists| && g !in s.lists[j] && Inv(s)
    ensures Del(Del(s.lists[j], h), g) == Del(s.lists[j], h)
  {
    assert j <= N_HBLK_FLS;
    DelElements(s.lists[j], h);
    DelAbsent(Del(s.lists[j], h), g);
  }

  // ---- One merge and the mapping ----

  /** As `Align`, with the successor's flag updated as well. */
  function AlignBoth(s: Heap, h: nat): (t: Heap)
    requires CanMerge(s, h) && s.chunks[h].n > 0
    ensures t.chunks.Keys == s.chunks.Keys
  {
    var g := h + s.chunks[h].n;
    var u := MergedFlag(s.chunks[h], s.chunks[g]);
    if s.chunks[h].core.unmapped != u then SetUnmapped(s, h, u)
    else if s.chunks[g].core.unmapped != u then SetUnmapped(s, g, u)
    else s
  }

  /** The flag of an absorbed header is lost, so it makes no difference. */
  lemma AbsorbedFlagForgotten(s: Heap, t: Heap, h: nat, g: nat, i: nat)
    requires h in s.chunks && g in s.chunks && g != h && |s.lists| == N_HBLK_FLS + 1 && i <= N_HBLK_FLS
    requires g in t.chunks && t == Heap(s.chunks[g := t.chunks[g]], s.lists, s.unmapped, s.large, s.dropped, s.drops)
    requires t.chunks[g].n == s.chunks[g].n && t.chunks[g].core.sz == s.chunks[g].core.sz
    ensures Join(Absorb(Take(s, h, i), g), h, g) == Join(Absorb(Take(t, h, i), g), h, g)
  {
    hide FlFromBlocks, Del;
    var c := Join(Absorb(Take(s, h, i), g), h, g).chunks;
    var d := Join(Absorb(Take(t, h, i), g), h, g).chunks;
    assert c == d;
  }

  lemma AlignedAlike(s: Heap, h: nat, i: nat)
    requires Pair(s, h, i)
    ensures s.chunks[h].n > 0 && |s.lists| == N_HBLK_FLS + 1
    ensures IsFree(AlignBoth(s, h), h) && AlignBoth(s, h).chunks[h].n == s.chunks[h].n
    ensures IsFree(AlignBoth(s, h), h + s.chunks[h].n)
    ensures MergePair(s, h, i) == Combine(AlignBoth(s, h), h, i)
  {
    hide InvExcept, FlFromBlocks, Take, Absorb, Join, Push, Del;
    PairShape(s, h, i);
    var k, l := s.chunks[h], s.chunks[h + s.chunks[h].n];
    if k.core.unmapped == MergedFlag(k, l) != l.core.unmapped {
      AbsorbedFlagForgotten(Align(s, h), AlignBoth(s, h), h, h + k.n, i);
    }
  }

  /** Chunk h and the chunk after it are free, and both mapped or both unmapped. */
  predicate SameFlag(s: Heap, h: nat) {
    && IsFree(s, h) && IsFree(s, h + s.chunks[h].n)
    && s.chunks[h].core.unmapped == s.chunks[h + s.chunks[h].n].core.unmapped
  }

  lemma AlignBothKeeps(s: Heap, h: nat, i: nat)
    requires Pair(s, h, i) && MappingAgrees(s)
    ensures s.chunks[h].n > 0
    ensures Inv(AlignBoth(s, h)) && MappingAgrees(AlignBoth(s, h)) && SameFlag(AlignBoth(s, h), h)
    ensures AlignBoth(s, h).chunks[h].n == s.chunks[h].n
  {
    hide InvExcept, SameCover, MappingAgrees;
    PairShape(s, h, i);
    AlignBothFlags(s, h);
    var g := h + s.chunks[h].n;
    var u := MergedFlag(s.chunks[h], s.chunks[g]);
    if s.chunks[h].core.unmapped != u {
      SetUnmappedAgrees(s, h, u);
    } else if s.chunks[g].core.unmapped != u {
      SetUnmappedAgrees(s, g, u);
    }
  }

  lemma AlignBothFlags(s: Heap, h: nat)
    requires CanMerge(s, h) && s.chunks[h].n > 0
    ensures SameFlag(AlignBoth(s, h), h) && AlignBoth(s, h).chunks[h].n == s.chunks[h].n
  {
  }

  lemma SetUnmappedAgrees(s: Heap, h: nat, u: bool)
    requires Inv(s) && IsFree(s, h) && MappingAgrees(s)
    ensures Inv(SetUnmapped(s, h, u)) && MappingAgrees(SetUnmapped(s, h, u))
  {
    SetUnmappedKeeps(s, h, u, 0, 0);
    UnmappedMapping(s, h, u);
  }

  /** All four cases of a merge leave one chunk wholly mapped or wholly unmapped. */
  lemma MergePairMapping(s: Heap, h: nat, i: nat)
    requires Pair(s, h, i) && MappingAgrees(s)
    ensures s.chunks[h].n > 0 && |s.lists| == N_HBLK_FLS + 1
    ensures MappingAgrees(MergePair(s, h, i))
  {
    hide Filed, Tiled, Tagged, MappingAgrees, AlignBoth, MergePair, FlFromBlocks, SameCover;
    PairShape(s, h, i);
    AlignBothKeeps(s, h, i);
    AlignedAlike(s, h, i);
    AlignedPairMapping(AlignBoth(s, h), h, i);
  }

  lemma AlignedPairMapping(s: Heap, h: nat, i: nat)
    requires Inv(s) && MappingAgrees(s) && SameFlag(s, h) && i == FlFromBlocks(s.chunks[h].n) && h > 0
    requires s.chunks[h].n > 0 && |s.lists| == N_HBLK_FLS + 1
    ensures MappingAgrees(Combine(s, h, i))
  {
    hide Filed, Tiled, Tagged, MappingAgrees, FlFromBlocks, SameCover;
    var g := h + s.chunks[h].n;
    TakeKeeps(s, h, i, 0, 0);
    var s2 := Take(s, h, i);
    SameFlags(s, s2, h);
    AbsorbMapping(s2, h, g, g);
    var s3 := Join(Absorb(s2, g), h, g);
    SameFlags(s3, Push(s3, h), h);
  }

  // ---- The pass ----

  lemma FewerChunks(s: Heap, t: Heap, h: nat)
    requires MergedTo(s, t, h)
    ensures |t.chunks| < |s.chunks|
  {
    hide InvExcept, Weigh, SameCover;
    var g := h + s.chunks[h].n;
    assert t.chunks.Keys <= s.chunks.Keys - {g};
    Fewer(t.chunks.Keys, s.chunks.Keys - {g});
  }

  lemma Fewer(a: set<nat>, b: set<nat>)
    requires a <= b
    ensures |a| <= |b|
  {
    var c := b - a;
    assert b == a + c;
  }

  /** One merge at position k of list i. */
  ghost function MergeAt(s: Heap, i: nat, k: nat): (t: Heap)
    requires Stands(s, i, k) && CanMerge(s, ChunkAt(s, i, k))
    ensures MergedTo(s, t, ChunkAt(s, i, k)) && Inv(t) && |t.chunks| < |s.chunks|
  {
    MergePairResult(s, ChunkAt(s, i, k), i);
    FewerChunks(s, MergePair(s, ChunkAt(s, i, k), i), ChunkAt(s, i, k));
    MergePair(s, ChunkAt(s, i, k), i)
  }

  /** The walk over list i, starting over at its head after every merge. */
  ghost function MergeList(s: Heap, i: nat, k: nat): (t: Heap)
    requires Inv(s) && i <= N_HBLK_FLS
    decreases |s.chunks|, |ListOf(s, i)| - k
  {
    if k >= |ListOf(s, i)| then s
    else if CanMerge(s, ChunkAt(s, i, k)) then MergeList(MergeAt(s, i, k), i, 0)
    else MergeList(s, i, k + 1)
  }

  /** `GC_merge_unmapped` from list i on. */
  ghost function MergeUnmapped(s: Heap, i: nat): (t: Heap)
    requires Inv(s)
    decreases N_HBLK_FLS + 1 - i
  {
    if i > N_HBLK_FLS then s
    else
      MergeListKeeps(s, i, 0);
      MergeUnmapped(MergeList(s, i, 0), i + 1)
  }

  /** What any number of merges keeps. */
  ghost predicate MergeKeeps(s: Heap, t: Heap) {
    && Inv(t) && SameCover(s.chunks, t.chunks)
    && FreeBlocks(t) == FreeBlocks(s) && TotalBlocks(t) == TotalBlocks(s)
    && t.large == s.large && t.dropped == s.dropped && t.drops == s.drops
    && (forall f :: f in s.chunks && !s.chunks[f].use.Free? ==> f in t.chunks && t.chunks[f] == s.chunks[f])
    && (forall f :: f in t.chunks && !t.chunks[f].use.Free? ==> f in s.chunks && s.chunks[f] == t.chunks[f])
    && (MappingAgrees(s) ==> MappingAgrees(t))
  }

  lemma MergeKeepsCompose(s: Heap, t: Heap, u: Heap)
    requires MergeKeeps(s, t) && MergeKeeps(t, u)
    ensures MergeKeeps(s, u)
  {
    hide InvExcept, SameCover, MappingAgrees, Weigh;
    CoverTransitive(s.chunks, t.chunks, u.chunks);
  }

  lemma NoMerge(s: Heap)
    requires Inv(s)
    ensures MergeKeeps(s, s)
  {
  }

  lemma MergeAtKeeps(s: Heap, i: nat, k: nat)
    requires Stands(s, i, k) && CanMerge(s, ChunkAt(s, i, k))
    ensures MergeKeeps(s, MergeAt(s, i, k))
  {
    hide InvExcept, SameCover, MappingAgrees, Weigh, FlFromBlocks, MergePair, CanMerge, Replaced;
    var h, t := ChunkAt(s, i, k), MergeAt(s, i, k);
    if MappingAgrees(s) {
      MergePairMapping(s, h, i);
    }
    UsedKept(s, t, h);
  }

  lemma UsedKept(s: Heap, t: Heap, h: nat)
    requires Inv(s) && MergedTo(s, t, h)
    ensures forall f :: f in s.chunks && !s.chunks[f].use.Free? ==> f in t.chunks && t.chunks[f] == s.chunks[f]
    ensures forall f :: f in t.chunks && !t.chunks[f].use.Free? ==> f in s.chunks && s.chunks[f] == t.chunks[f]
  {
    UsedOutside(s, h);
    hide InvExcept, SameCover, Weigh;
  }

  lemma UsedOutside(s: Heap, h: nat)
    requires Inv(s) && CanMerge(s, h)
    ensures var g := h + s.chunks[h].n;
      forall f :: f in s.chunks && h <= f < g + s.chunks[g].n ==> s.chunks[f].use.Free?
  {
    hide Filed;
  }

  lemma MergeListUnfolds(s: Heap, i: nat, k: nat)
    requires Inv(s) && i <= N_HBLK_FLS
    ensures MergeList(s, i, k) ==
              if k >= |ListOf(s, i)| then s
              else if CanMerge(s, ChunkAt(s, i, k)) then MergeList(MergeAt(s, i, k), i, 0)
              else MergeList(s, i, k + 1)
  {
    hide InvExcept, MergedTo, CanMerge, ChunkAt, MergeAt, ListOf;
  }

  /** Every walk keeps the invariant, the covered blocks, the used chunks, the counts and
      the agreement of flags and mapping. */
  lemma {:induction false} MergeListKeeps(s: Heap, i: nat, k: nat)
    requires Inv(s) && i <= N_HBLK_FLS
    ensures MergeKeeps(s, MergeList(s, i, k)) && Inv(MergeList(s, i, k))
    decreases |s.chunks|, |ListOf(s, i)| - k
  {
    hide InvExcept, MergeKeeps, MergedTo, CanMerge, ChunkAt, MergeAt, ListOf, MergeList;
    MergeListUnfolds(s, i, k);
    if k >= |ListOf(s, i)| {
      NoMerge(s);
    } else if CanMerge(s, ChunkAt(s, i, k)) {
      var t := MergeAt(s, i, k);
      MergeAtKeeps(s, i, k);
      MergeListKeeps(t, i, 0);
      MergeKeepsCompose(s, t, MergeList(t, i, 0));
    } else {
      MergeListKeeps(s, i, k + 1);
    }
  }

  lemma {:induction false} MergeUnmappedKeeps(s: Heap, i: nat)
    requires Inv(s)
    ensures MergeKeeps(s, MergeUnmapped(s, i))
    decreases N_HBLK_FLS + 1 - i
  {
    NoMerge(s);
    hide InvExcept, MergeKeeps;
    if i <= N_HBLK_FLS {
      MergeListKeeps(s, i, 0);
      var t := MergeList(s, i, 0);
      MergeUnmappedKeeps(t, i + 1);
      MergeKeepsCompose(s, t, MergeUnmapped(t, i + 1));
    }
  }

  // ---- One ascending pass is enough ----

  /** No chunk on a list before i can merge with its successor. */
  ghost predicate CleanBelow(s: Heap, i: nat) {
    forall h :: IsFree(s, h) && FlFromBlocks(s.chunks[h].n) < i ==> !CanMerge(s, h)
  }

  /** A merge on list i refiles at i or later, so the earlier lists stay clean. */
  lemma MergeStaysClean(s: Heap, t: Heap, h: nat, i: nat)
    requires MergedTo(s, t, h) && CleanBelow(s, i) && FlFromBlocks(s.chunks[h].n) == i && s.chunks[h].n > 0
    ensures CleanBelow(t, i)
  {
    hide InvExcept, FlFromBlocks, Weigh, SameCover;
    FlMonotone(s.chunks[h].n, t.chunks[h].n);
    forall f | IsFree(t, f) && FlFromBlocks(t.chunks[f].n) < i
      ensures !CanMerge(t, f)
    {
      assert t.chunks[f] == s.chunks[f];
      assert !CanMerge(s, f);
    }
  }

  lemma {:induction false} MergeListCleans(s: Heap, i: nat, k: nat)
    requires Inv(s) && i <= N_HBLK_FLS && CleanBelow(s, i) && k <= |ListOf(s, i)|
    requires forall j :: 0 <= j < k ==> !CanMerge(s, ListOf(s, i)[j])
    ensures CleanBelow(MergeList(s, i, k), i + 1)
    decreases |s.chunks|, |ListOf(s, i)| - k
  {
    if k >= |ListOf(s, i)| {
      ListClean(s, i);
    } else if CanMerge(s, ChunkAt(s, i, k)) {
      hide Filed, Tiled, MergedTo, CanMerge, CleanBelow, MergePair;
      assert s.chunks[ChunkAt(s, i, k)].n > 0 by { ChunkPositive(s, ChunkAt(s, i, k)); }
      var t := MergeAt(s, i, k);
      MergeStaysClean(s, t, ChunkAt(s, i, k), i);
      MergeListCleans(t, i, 0);
    } else {
      hide InvExcept, CanMerge, CleanBelow;
      MergeListCleans(s, i, k + 1);
    }
  }

  lemma ChunkPositive(s: Heap, h: nat)
    requires Inv(s) && h in s.chunks
    ensures s.chunks[h].n > 0
  {
  }

  lemma ListClean(s: Heap, i: nat)
    requires Inv(s) && i <= N_HBLK_FLS && CleanBelow(s, i)
    requires forall j :: 0 <= j < |ListOf(s, i)| ==> !CanMerge(s, ListOf(s, i)[j])
    ensures CleanBelow(s, i + 1)
  {
    forall h | IsFree(s, h) && FlFromBlocks(s.chunks[h].n) < i + 1
      ensures !CanMerge(s, h)
    {
      if FlFromBlocks(s.chunks[h].n) == i {
        assert h in s.lists[i];
        assert ListOf(s, i)[IndexOf(s.lists[i], h)] == h;
      }
    }
  }

  lemma {:induction false} MergeUnmappedCleans(s: Heap, i: nat)
    requires Inv(s) && CleanBelow(s, i)
    ensures CleanBelow(MergeUnmapped(s, i), N_HBLK_FLS + 1)
    decreases N_HBLK_FLS + 1 - i
  {
    if i <= N_HBLK_FLS {
      hide InvExcept, CleanBelow, CanMerge;
      MergeListKeeps(s, i, 0);
      MergeListCleans(s, i, 0);
      MergeUnmappedCleans(MergeList(s, i, 0), i + 1);
    }
  }

  /** After the pass, two adjacent free chunks remain only where their combined size overflows. */
  lemma NothingLeftToMerge(s: Heap, g: nat, h: nat)
    requires Inv(s)
    requires var t := MergeUnmapped(s, 0); IsFree(t, g) && IsFree(t, h) && h == g + t.chunks[g].n
    ensures var t := MergeUnmapped(s, 0); t.chunks[g].n + t.chunks[h].n >= HALF_SPACE
  {
    hide InvExcept;
    MergeUnmappedCleans(s, 0);
    assert !CanMerge(MergeUnmapped(s, 0), g);
  }
}
