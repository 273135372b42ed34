/** What freeing a chunk and adding memory to the heap do to the tiling and the lists. */
module Freeing {
  import opened Words
  import opened FreeListIndex
  import opened Sequences
  import opened Chunks

  ghost predicate EndsAt(c: map<nat, Chunk>, p: nat, h: nat) {
    p in c && c[p].use.Free? && p + c[p].n == h
  }

  /** The free chunk that ends just before h, or 0. */
  ghost function FreeBefore(c: map<nat, Chunk>, h: nat): (p: nat)
    ensures p != 0 ==> EndsAt(c, p, h)
    ensures (exists q :: q > 0 && EndsAt(c, q, h)) ==> p != 0
  {
    if q: nat :| q > 0 && EndsAt(c, q, h) then q else 0
  }

  lemma FreeBeforeUnique(c: map<nat, Chunk>, p: nat, q: nat, h: nat)
    requires Tiled(c) && EndsAt(c, p, h) && EndsAt(c, q, h)
    ensures p == q && FreeBefore(c, h) == p
  {
  }

  /** The used chunk h, its header rewritten as that of a free chunk not yet on a list. */
  function Release(s: Heap, h: nat): Heap
    requires h in s.chunks
  {
    var k := s.chunks[h];
    Heap(s.chunks[h := Chunk(k.n, Taken, Core(k.n * HBLKSIZE, k.core.unmapped, true))],
         s.lists, s.unmapped, s.large, s.dropped, s.drops)
  }

  /** Chunk h absorbs the free chunk g next to it, whichever comes first. */
  function Absorb(s: Heap, g: nat): Heap
    requires g in s.chunks && |s.lists| == N_HBLK_FLS + 1
  {
    Take(s, g, FlFromBlocks(s.chunks[g].n))
  }

  /** A freed chunk of n blocks merges with the chunk g beside it: g is free and mapped, and the
      sizes do not overflow. */
  predicate Joinable(s: Heap, g: nat, n: nat) {
    IsFree(s, g) && !s.chunks[g].core.unmapped && n + s.chunks[g].n < HALF_SPACE
  }

  predicate Mergeable(s: Heap, h: nat, g: nat)
    requires h in s.chunks
  {
    Joinable(s, g, s.chunks[h].n)
  }

  function AbsorbNext(s: Heap, h: nat): (t: Heap)
    requires h in s.chunks && s.chunks[h].n > 0 && |s.lists| == N_HBLK_FLS + 1
    ensures h in t.chunks && |t.lists| == N_HBLK_FLS + 1
  {
    var g := h + s.chunks[h].n;
    if Mergeable(s, h, g) then Join(Absorb(s, g), h, g) else s
  }

  /** The surviving chunk after a possible merge with predecessor p. */
  function Survivor(s: Heap, h: nat, p: nat): (t: nat)
    requires h in s.chunks
    ensures t in s.chunks
  {
    if p != 0 && Mergeable(s, h, p) then p else h
  }

  function AbsorbPrev(s: Heap, h: nat, p: nat): (t: Heap)
    requires h in s.chunks && h != p && |s.lists| == N_HBLK_FLS + 1
    ensures Survivor(s, h, p) in t.chunks && |t.lists| == N_HBLK_FLS + 1
  {
    if Survivor(s, h, p) == p then Join(Absorb(s, p), p, h) else s
  }

  function Credit(s: Heap, bytes: int): Heap {
    Heap(s.chunks, s.lists, s.unmapped, s.large + bytes, s.dropped, s.drops)
  }

  /** Chunk h has a header that `GC_add_to_fl` accepts. */
  predicate ReadyToFile(c: map<nat, Chunk>, h: nat) {
    h in c && c[h].use.Taken? && c[h].core.sz == c[h].n * HBLKSIZE && c[h].n < HALF_SPACE
  }

  predicate Releasable(s: Heap, h: nat) {
    h in s.chunks && (s.chunks[h].use.Used? || s.chunks[h].use.Taken?) && s.chunks[h].n < HALF_SPACE
  }

  /** Chunk h released and merged with its successor if possible. */
  function MergedUp(s: Heap, h: nat): (t: Heap)
    requires Inv(s) && Releasable(s, h)
    ensures h in t.chunks && |t.lists| == N_HBLK_FLS + 1
  {
    AbsorbNext(Release(s, h), h)
  }

  /** First block of the free chunk that freeing h produces. */
  ghost function FreedFrom(s: Heap, h: nat): (lo: nat)
    requires Inv(s) && Releasable(s, h)
  {
    Survivor(MergedUp(s, h), h, FreeBefore(s.chunks, h))
  }

  /** The block after that chunk. */
  ghost function FreedTo(s: Heap, h: nat): (hi: nat)
    requires Inv(s) && Releasable(s, h)
  {
    h + MergedUp(s, h).chunks[h].n
  }

  /** Chunk h released and merged with both neighbours where possible. */
  ghost function Merged(s: Heap, h: nat): (t: Heap)
    requires Inv(s) && Releasable(s, h)
    ensures FreedFrom(s, h) in t.chunks && |t.lists| == N_HBLK_FLS + 1
  {
    AbsorbPrev(MergedUp(s, h), h, FreeBefore(s.chunks, h))
  }

  /** `GC_freehblk`. */
  ghost function FreeHblk(s: Heap, h: nat): Heap
    requires Inv(s) && Releasable(s, h)
  {
    Push(Credit(Merged(s, h), s.chunks[h].n * HBLKSIZE), FreedFrom(s, h))
  }

  lemma ReleaseKeeps(s: Heap, h: nat)
    requires Inv(s) && Releasable(s, h)
    ensures Inv(Release(s, h)) && SameCover(s.chunks, Release(s, h).chunks)
    ensures FreeBlocks(Release(s, h)) == FreeBlocks(s) && TotalBlocks(Release(s, h)) == TotalBlocks(s)
  {
    var t := Release(s, h);
    SameSizeWeighs(s.chunks, h, t.chunks[h]);
    assert forall g :: g in s.chunks <==> g in t.chunks;
    assert forall g :: g in s.chunks ==> t.chunks[g].n == s.chunks[g].n;
  }

  /** Chunks lo and hi, one right after the other; g, one of them, is free and the other taken. */
  ghost predicate Neighbours(s: Heap, lo: nat, hi: nat, g: nat) {
    && lo in s.chunks && hi in s.chunks && hi == lo + s.chunks[lo].n && lo != hi
    && (g == lo || g == hi) && IsFree(s, g) && IsTaken(s, lo + hi - g)
  }

  lemma AbsorbInv(s: Heap, lo: nat, hi: nat, g: nat)
    requires Inv(s) && Neighbours(s, lo, hi, g)
    ensures Inv(Join(Absorb(s, g), lo, hi)) && CutAt(Join(Absorb(s, g), lo, hi).chunks, Absorb(s, g).chunks, lo, hi)
    ensures SameCover(s.chunks, Absorb(s, g).chunks)
    ensures SameCover(Absorb(s, g).chunks, Join(Absorb(s, g), lo, hi).chunks)
  {
    hide InvExcept, SameCover, Weigh, FlFromBlocks, CutAt;
    ChunkFacts(s, g, 0, 0);
    var i := FlFromBlocks(s.chunks[g].n);
    TakeKeeps(s, g, i, 0, 0);
    JoinKeeps(Take(s, g, i), lo, hi, 0, 0);
  }

  lemma AbsorbWeighs(s: Heap, lo: nat, hi: nat, g: nat)
    requires Inv(s) && Neighbours(s, lo, hi, g)
    ensures FreeBlocks(Join(Absorb(s, g), lo, hi)) == FreeBlocks(s) - s.chunks[g].n
    ensures TotalBlocks(Join(Absorb(s, g), lo, hi)) == TotalBlocks(s)
  {
    hide Filed, Tiled, Tagged, Weigh, FlFromBlocks;
    var i := FlFromBlocks(s.chunks[g].n);
    TakeWeighs(s, g, i);
    JoinWeighs(Take(s, g, i), lo, hi);
  }

  lemma AbsorbKeeps(s: Heap, lo: nat, hi: nat, g: nat, t: Heap)
    requires Inv(s) && Neighbours(s, lo, hi, g) && t == Join(Absorb(s, g), lo, hi)
    ensures Inv(t) && SameCover(s.chunks, t.chunks)
    ensures FreeBlocks(t) == FreeBlocks(s) - s.chunks[g].n && TotalBlocks(t) == TotalBlocks(s)
  {
    hide Filed, Tiled, SameCover, Tagged, Weigh, FlFromBlocks, CutAt;
    AbsorbInv(s, lo, hi, g);
    AbsorbWeighs(s, lo, hi, g);
    CoverTransitive(s.chunks, Absorb(s, g).chunks, t.chunks);
  }

  // ---- The resulting interval ----

  /** In t the free chunk [lo, hi) stands where s had the chunks inside it. */
  ghost predicate Replaced(c: map<nat, Chunk>, d: map<nat, Chunk>, lo: nat, hi: nat) {
    && lo < hi && lo in d && d[lo].n == hi - lo
    && (forall f :: f in d && f != lo ==> f in c && d[f] == c[f])
    && (forall f :: f in c && !(lo <= f < hi) ==> f in d)
    && (forall f :: f in c && lo <= f < hi && f != lo ==> f !in d)
  }

  lemma AbsorbReplaces(s: Heap, lo: nat, hi: nat, g: nat)
    requires Inv(s) && Neighbours(s, lo, hi, g)
    ensures Replaced(s.chunks, Join(Absorb(s, g), lo, hi).chunks, lo, hi + s.chunks[hi].n)
  {
    assert Join(Absorb(s, g), lo, hi).chunks.Keys == s.chunks.Keys - {hi};
    forall f | f in s.chunks && lo <= f < hi + s.chunks[hi].n
      ensures f == lo || f == hi
    {
    }
  }

  lemma Untouched(s: Heap, h: nat)
    requires Inv(s) && h in s.chunks
    ensures Replaced(s.chunks, s.chunks, h, h + s.chunks[h].n)
  {
  }

  lemma SelfCover(c: map<nat, Chunk>)
    ensures SameCover(c, c)
  {
  }

  lemma MergedHeader(s: Heap, h: nat, g: nat)
    requires Inv(s) && ReadyToFile(s.chunks, h) && Mergeable(s, h, g) && g != h && |s.lists| == N_HBLK_FLS + 1
    ensures var t := Join(Absorb(s, g), h, g);
      && ReadyToFile(t.chunks, h) && t.chunks[h].n == s.chunks[h].n + s.chunks[g].n
      && t.chunks[h].core.unmapped == s.chunks[h].core.unmapped
  {
    hide Filed, Tiled, FlFromBlocks;
    assert Tagged(s.chunks[g]);
  }

  lemma NextAbsorbed(s: Heap, h: nat)
    requires Inv(s) && ReadyToFile(s.chunks, h)
    ensures var t := AbsorbNext(s, h);
      && Inv(t) && ReadyToFile(t.chunks, h)
      && t.chunks[h].core.unmapped == s.chunks[h].core.unmapped
      && SameCover(s.chunks, t.chunks) && Replaced(s.chunks, t.chunks, h, h + t.chunks[h].n)
      && FreeBlocks(t) == FreeBlocks(s) - (t.chunks[h].n - s.chunks[h].n) && TotalBlocks(t) == TotalBlocks(s)
  {
    hide InvExcept, SameCover, Replaced, CutAt, Weigh, FlFromBlocks;
    ChunkFacts(s, h, 0, 0);
    SelfCover(s.chunks);
    var g := h + s.chunks[h].n;
    if Mergeable(s, h, g) {
      MergedHeader(s, h, g);
      AbsorbKeeps(s, h, g, g, AbsorbNext(s, h));
      AbsorbReplaces(s, h, g, g);
      assert AbsorbNext(s, h) == Join(Absorb(s, g), h, g);
    } else {
      assert AbsorbNext(s, h) == s;
      Untouched(s, h);
    }
  }

  lemma PrevAbsorbed(s: Heap, h: nat, p: nat)
    requires Inv(s) && ReadyToFile(s.chunks, h)
    requires p != 0 ==> EndsAt(s.chunks, p, h)
    requires !s.chunks[h].core.unmapped
    ensures var t, lo := AbsorbPrev(s, h, p), Survivor(s, h, p);
      && Inv(t) && ReadyToFile(t.chunks, lo)
      && !t.chunks[lo].core.unmapped && (lo == p || lo == h) && lo <= h
      && SameCover(s.chunks, t.chunks) && Replaced(s.chunks, t.chunks, lo, h + s.chunks[h].n)
      && FreeBlocks(t) == FreeBlocks(s) - (t.chunks[lo].n - s.chunks[h].n) && TotalBlocks(t) == TotalBlocks(s)
  {
    if p != 0 && Mergeable(s, h, p) {
      AbsorbKeeps(s, p, h, p, AbsorbPrev(s, h, p));
      AbsorbReplaces(s, p, h, p);
    }
  }

  lemma ReplacedCompose(c: map<nat, Chunk>, d: map<nat, Chunk>, e: map<nat, Chunk>, h: nat, lo: nat, hi: nat)
    requires Replaced(c, d, h, hi) && Replaced(d, e, lo, hi) && lo <= h
    ensures Replaced(c, e, lo, hi)
  {
  }

  lemma MergedUpResult(s: Heap, h: nat)
    requires Inv(s) && Releasable(s, h)
    ensures var t, hi := MergedUp(s, h), FreedTo(s, h);
      && Inv(t) && SameCover(s.chunks, t.chunks) && ReadyToFile(t.chunks, h) && h + s.chunks[h].n <= hi
      && t.chunks[h].core.unmapped == s.chunks[h].core.unmapped
      && Replaced(s.chunks, t.chunks, h, hi)
      && FreeBlocks(t) == FreeBlocks(s) - (t.chunks[h].n - s.chunks[h].n) && TotalBlocks(t) == TotalBlocks(s)
  {
    ReleaseKeeps(s, h);
    NextAbsorbed(Release(s, h), h);
  }

  lemma FreeBeforeStays(s: Heap, h: nat)
    requires Inv(s) && Releasable(s, h)
    ensures var p := FreeBefore(s.chunks, h);
      p != 0 ==> EndsAt(MergedUp(s, h).chunks, p, h) && MergedUp(s, h).chunks[p] == s.chunks[p]
  {
    MergedUpResult(s, h);
  }

  lemma MergedResult(s: Heap, h: nat)
    requires Inv(s) && Releasable(s, h) && !s.chunks[h].core.unmapped
    ensures var t, lo, hi := Merged(s, h), FreedFrom(s, h), FreedTo(s, h);
      && Inv(t) && SameCover(s.chunks, t.chunks) && ReadyToFile(t.chunks, lo) && !t.chunks[lo].core.unmapped
      && lo <= h < h + s.chunks[h].n <= hi && Replaced(s.chunks, t.chunks, lo, hi)
      && FreeBlocks(t) == FreeBlocks(s) - (t.chunks[lo].n - s.chunks[h].n) && TotalBlocks(t) == TotalBlocks(s)
  {
    var s2, p, lo, hi := MergedUp(s, h), FreeBefore(s.chunks, h), FreedFrom(s, h), FreedTo(s, h);
    MergedUpResult(s, h);
    FreeBeforeStays(s, h);
    PrevAbsorbed(s2, h, p);
    ReplacedCompose(s.chunks, s2.chunks, Merged(s, h).chunks, h, lo, hi);
  }

  /** The facts every later argument about a freed chunk uses. */
  lemma FreeResult(s: Heap, h: nat)
    requires Inv(s) && Releasable(s, h) && !s.chunks[h].core.unmapped
    ensures var t, lo, hi := FreeHblk(s, h), FreedFrom(s, h), FreedTo(s, h);
      && Inv(t) && SameCover(s.chunks, t.chunks)
      && lo <= h < h + s.chunks[h].n <= hi && Replaced(s.chunks, t.chunks, lo, hi)
      && t.chunks[lo].use.Free? && !t.chunks[lo].core.unmapped
      && FreeBlocks(t) == FreeBlocks(s) + s.chunks[h].n && TotalBlocks(t) == TotalBlocks(s)
  {
    MergedResult(s, h);
    FileResult(s.chunks, Merged(s, h), s.chunks[h].n * HBLKSIZE, FreedFrom(s, h), FreedTo(s, h));
  }

  lemma FileResult(c: map<nat, Chunk>, s: Heap, bytes: int, lo: nat, hi: nat)
    requires Inv(s) && ReadyToFile(s.chunks, lo) && SameCover(c, s.chunks) && Replaced(c, s.chunks, lo, hi)
    ensures var t := Push(Credit(s, bytes), lo);
      && Inv(t) && SameCover(c, t.chunks) && Replaced(c, t.chunks, lo, hi) && t.chunks[lo].use.Free?
      && t.chunks[lo].core.unmapped == s.chunks[lo].core.unmapped
      && FreeBlocks(t) == FreeBlocks(s) + s.chunks[lo].n && TotalBlocks(t) == TotalBlocks(s)
  {
    var s1 := Credit(s, bytes);
    assert InvExcept(s1, 0, 0);
    PushKeeps(s1, lo, 0, 0);
    PushWeighs(s1, lo);
  }

  lemma FreeCounters(s: Heap, h: nat)
    requires Inv(s) && Releasable(s, h)
    ensures var t := FreeHblk(s, h);
      && t.large == s.large + s.chunks[h].n * HBLKSIZE
      && t.unmapped == s.unmapped && t.dropped == s.dropped && t.drops == s.drops
  {
  }

  /** Freeing keeps the counter equal to the bytes in free chunks. */
  lemma FreeBalances(s: Heap, h: nat)
    requires Inv(s) && Releasable(s, h) && !s.chunks[h].core.unmapped && Balanced(s)
    ensures Balanced(FreeHblk(s, h))
  {
    FreeResult(s, h);
    FreeCounters(s, h);
  }

  /** Only mapped chunks are merged, so flags and mapping still agree. */
  lemma FreeKeepsMapping(s: Heap, h: nat)
    requires Inv(s) && Releasable(s, h) && !s.chunks[h].core.unmapped && MappingAgrees(s)
    ensures MappingAgrees(FreeHblk(s, h))
  {
    MergedUpMapping(s, h);
    MergedUpResult(s, h);
    FreeBeforeStays(s, h);
    var s2, p := MergedUp(s, h), FreeBefore(s.chunks, h);
    if p != 0 && Mergeable(s2, h, p) {
      AbsorbMapping(s2, p, h, p);
    }
    assert MappingAgrees(Merged(s, h));
    SameFlags(Merged(s, h), FreeHblk(s, h), FreedFrom(s, h));
  }

  lemma MergedUpMapping(s: Heap, h: nat)
    requires Inv(s) && Releasable(s, h) && !s.chunks[h].core.unmapped && MappingAgrees(s)
    ensures MappingAgrees(MergedUp(s, h))
  {
    var s1 := Release(s, h);
    ReleaseKeeps(s, h);
    SameFlags(s, s1, h);
    AbsorbNextMapping(s1, h);
  }

  lemma AbsorbNextMapping(s: Heap, h: nat)
    requires Inv(s) && IsTaken(s, h) && !s.chunks[h].core.unmapped && MappingAgrees(s)
    ensures MappingAgrees(AbsorbNext(s, h))
  {
    hide Filed, Tiled, MappingAgrees;
    var g := h + s.chunks[h].n;
    if Mergeable(s, h, g) {
      AbsorbMapping(s, h, g, g);
    }
  }

  lemma AbsorbMapping(s: Heap, lo: nat, hi: nat, g: nat)
    requires Inv(s) && Neighbours(s, lo, hi, g) && MappingAgrees(s)
    requires s.chunks[lo].core.unmapped == s.chunks[hi].core.unmapped
    ensures MappingAgrees(Join(Absorb(s, g), lo, hi))
  {
    AbsorbInv(s, lo, hi, g);
    SameFlags(s, Absorb(s, g), g);
    CutMapping(Join(Absorb(s, g), lo, hi), Absorb(s, g), lo, hi);
  }

  // ---- Maximal coalescing ----

  /** No two adjacent chunks are both free. */
  ghost predicate Coalesced(c: map<nat, Chunk>) {
    forall g, h :: g in c && h in c && c[g].use.Free? && g + c[g].n == h ==> !c[h].use.Free?
  }

  ghost predicate AllMapped(s: Heap) {
    forall h :: h in s.chunks ==> !s.chunks[h].core.unmapped
  }

  /** Freeing h merges it with its predecessor p, after whatever the successor contributed. */
  ghost predicate MergesBefore(s: Heap, h: nat, p: nat)
    requires Inv(s) && Releasable(s, h)
  {
    FreedTo(s, h) >= h && Joinable(s, p, FreedTo(s, h) - h)
  }

  /** The freed chunk extends over the successor exactly if that is free, mapped and not too large. */
  lemma FreedToNext(s: Heap, h: nat)
    requires Inv(s) && Releasable(s, h)
    ensures var g := h + s.chunks[h].n;
      FreedTo(s, h) == if Mergeable(s, h, g) then g + s.chunks[g].n else g
    ensures var n, g := s.chunks[h].n, h + s.chunks[h].n;
      Mergeable(s, h, g) <==> IsFree(s, g) && !s.chunks[g].core.unmapped && n + s.chunks[g].n < 0x8000
  {
    hide Filed, Tagged, AbsorbNext, Mergeable;
    assert s.chunks[h].n > 0;
    MergeableMeans(s, h, h + s.chunks[h].n);
    AbsorbNextSize(Release(s, h), h);
    ReleaseMerges(s, h, h + s.chunks[h].n);
  }

  lemma MergeableMeans(s: Heap, h: nat, g: nat)
    requires h in s.chunks
    ensures Mergeable(s, h, g) <==>
              IsFree(s, g) && !s.chunks[g].core.unmapped && s.chunks[h].n + s.chunks[g].n < 0x8000
  {
  }

  lemma AbsorbNextSize(s: Heap, h: nat)
    requires h in s.chunks && s.chunks[h].n > 0 && |s.lists| == N_HBLK_FLS + 1
    ensures var g := h + s.chunks[h].n;
      AbsorbNext(s, h).chunks[h].n == s.chunks[h].n + if Mergeable(s, h, g) then s.chunks[g].n else 0
  {
    hide FlFromBlocks;
  }

  lemma ReleaseMerges(s: Heap, h: nat, g: nat)
    requires h in s.chunks && g != h
    ensures Mergeable(Release(s, h), h, g) <==> Mergeable(s, h, g)
    ensures Release(s, h).chunks[h].n == s.chunks[h].n
    ensures g in s.chunks ==> Release(s, h).chunks[g] == s.chunks[g]
  {
  }

  /** It starts at the predecessor exactly if that is free, mapped and not too large. */
  lemma FreedFromPrevious(s: Heap, h: nat)
    requires Inv(s) && Releasable(s, h)
    ensures var p := FreeBefore(s.chunks, h);
      FreedFrom(s, h) == if p != 0 && MergesBefore(s, h, p) then p else h
    ensures var p := FreeBefore(s.chunks, h);
      p != 0 ==>
        && IsFree(s, p)
        && (MergesBefore(s, h, p) <==> !s.chunks[p].core.unmapped && (FreedTo(s, h) - h) + s.chunks[p].n < 0x8000)
  {
    hide InvExcept, MergedUp, FreeBefore, Replaced, SameCover, Weigh;
    MergedUpResult(s, h);
    FreeBeforeStays(s, h);
  }

  /** No two adjacent free chunks are left exactly if there were none before and the freed chunk
      merged with each free neighbour. */
  lemma CoalescesExactly(s: Heap, h: nat)
    requires Inv(s) && Releasable(s, h) && !s.chunks[h].core.unmapped
    ensures var g, p := h + s.chunks[h].n, FreeBefore(s.chunks, h);
      Coalesced(FreeHblk(s, h).chunks) <==>
        Coalesced(s.chunks) && (IsFree(s, g) ==> Mergeable(s, h, g)) && (p != 0 ==> MergesBefore(s, h, p))
  {
    hide InvExcept, FreeHblk, FreedFrom, FreedTo, Coalesced, MergesBefore, SameCover, Weigh, Replaced, FreeBefore;
    FreeResult(s, h);
    FreedInterval(s, h);
    ReplacedCoalesced(s.chunks, FreeHblk(s, h).chunks, FreedFrom(s, h), FreedTo(s, h));
    if Coalesced(s.chunks) {
      BordersFree(s, h);
    }
  }

  /** Of two adjacent free chunks the first lies outside [lo, hi) or ends it. */
  ghost predicate NoPairInside(c: map<nat, Chunk>, lo: nat, hi: nat) {
    forall f, e :: f in c && e in c && c[f].use.Free? && c[e].use.Free? && f + c[f].n == e ==>
      !(lo <= f < hi) || e == hi
  }

  lemma FreedInterval(s: Heap, h: nat)
    requires Inv(s) && Releasable(s, h)
    ensures Tiled(s.chunks) && FreedFrom(s, h) in s.chunks
    ensures NoPairInside(s.chunks, FreedFrom(s, h), FreedTo(s, h))
  {
    hide Filed, FreedFrom, FreedTo, MergesBefore, FreeBefore;
    FreedToNext(s, h);
    FreedFromPrevious(s, h);
  }

  /** One free chunk put in place of [lo, hi) leaves no adjacent free chunks exactly if there were
      none and no free chunk borders on [lo, hi). */
  lemma ReplacedCoalesced(c: map<nat, Chunk>, d: map<nat, Chunk>, lo: nat, hi: nat)
    requires Tiled(c) && Replaced(c, d, lo, hi) && d[lo].use.Free? && lo in c && NoPairInside(c, lo, hi)
    ensures Coalesced(d) <==>
      Coalesced(c) && !(hi in c && c[hi].use.Free?) && forall q: nat :: !EndsAt(c, q, lo)
  {
    if Coalesced(d) {
      CoalescedBefore(c, d, lo, hi);
    } else {
      var f, e :| f in d && e in d && d[f].use.Free? && f + d[f].n == e && d[e].use.Free?;
      assert EndsAt(c, f, e) || f == lo;
    }
  }

  lemma CoalescedBefore(c: map<nat, Chunk>, d: map<nat, Chunk>, lo: nat, hi: nat)
    requires Tiled(c) && Replaced(c, d, lo, hi) && d[lo].use.Free? && lo in c && NoPairInside(c, lo, hi)
    requires Coalesced(d)
    ensures Coalesced(c) && !(hi in c && c[hi].use.Free?)
    ensures forall q: nat :: !EndsAt(c, q, lo)
  {
    assert hi in c ==> hi in d && d[hi] == c[hi];
    forall q: nat
      ensures !EndsAt(c, q, lo)
    {
      assert q in c && q < lo ==> q in d && d[q] == c[q];
    }
    forall f, e | f in c && e in c && c[f].use.Free? && f + c[f].n == e
      ensures !c[e].use.Free?
    {
      assert e != lo ==> (!(lo <= f < hi) && !(lo <= e < hi) ==> f in d && e in d);
    }
  }

  /** In a coalesced heap a free chunk borders on the merged interval exactly where a merge failed. */
  lemma BordersFree(s: Heap, h: nat)
    requires Inv(s) && Releasable(s, h) && Coalesced(s.chunks)
    ensures var g := h + s.chunks[h].n; IsFree(s, FreedTo(s, h)) <==> IsFree(s, g) && !Mergeable(s, h, g)
    ensures var p := FreeBefore(s.chunks, h);
      (exists q: nat :: EndsAt(s.chunks, q, FreedFrom(s, h))) <==> p != 0 && !MergesBefore(s, h, p)
  {
    hide Filed, FreedFrom, FreedTo, MergesBefore;
    FreedToNext(s, h);
    FreedFromPrevious(s, h);
    assert 0 !in s.chunks;
    var p := FreeBefore(s.chunks, h);
    if p != 0 {
      assert EndsAt(s.chunks, p, h);
    }
  }

  /** Where everything is mapped and the heap is below half the address space, both merges succeed. */
  lemma NeighboursMerge(s: Heap, h: nat)
    requires Inv(s) && Releasable(s, h) && AllMapped(s) && TotalBlocks(s) < HALF_SPACE
    ensures var g := h + s.chunks[h].n; IsFree(s, g) ==> Mergeable(s, h, g)
    ensures var p := FreeBefore(s.chunks, h); p != 0 ==> MergesBefore(s, h, p)
  {
    hide Filed, Weigh, MergedUp, FreeBefore, Replaced;
    var g, p := h + s.chunks[h].n, FreeBefore(s.chunks, h);
    if IsFree(s, g) {
      WeighTwo(s.chunks, h, g);
    }
    if p != 0 {
      MergedUpResult(s, h);
      FreeBeforeStays(s, h);
      WeighTwo(MergedUp(s, h).chunks, h, p);
    }
  }

  /** With every chunk mapped and a heap below half the address space, freeing
      leaves no two adjacent free chunks. */
  lemma FreeCoalesces(s: Heap, h: nat)
    requires Inv(s) && Releasable(s, h) && AllMapped(s)
    requires Coalesced(s.chunks) && TotalBlocks(s) < HALF_SPACE
    ensures Coalesced(FreeHblk(s, h).chunks) && AllMapped(FreeHblk(s, h))
  {
    hide InvExcept, FreeHblk, FreedFrom, FreedTo, Coalesced, MergesBefore, SameCover, Weigh, FreeBefore;
    NeighboursMerge(s, h);
    CoalescesExactly(s, h);
    FreeResult(s, h);
    var t, lo := FreeHblk(s, h), FreedFrom(s, h);
    forall f | f in t.chunks
      ensures !t.chunks[f].core.unmapped
    {
      assert f != lo ==> t.chunks[f] == s.chunks[f];
    }
  }

  /** In a fully coalesced heap the used chunks and the covered blocks determine the
      free chunks: the order of frees leaves no trace. */
  lemma FreeChunksDetermined(c: map<nat, Chunk>, d: map<nat, Chunk>, h: nat)
    requires Tiled(c) && Tiled(d) && Coalesced(c) && Coalesced(d) && SameCover(c, d)
    requires forall g :: (g in c && !c[g].use.Free?) <==> (g in d && !d[g].use.Free?)
    requires forall g :: g in c && !c[g].use.Free? ==> c[g].n == d[g].n
    requires h in c && c[h].use.Free?
    ensures h in d && d[h].use.Free? && d[h].n == c[h].n
  {
    assert Covered(c, h);
    var g :| g in d && g <= h < g + d[g].n;
    FreeStartsAgree(c, d, h, g);
    if d[h].n < c[h].n {
      FreeEndsAgree(c, d, h);
    } else if c[h].n < d[h].n {
      FreeEndsAgree(d, c, h);
    }
  }

  lemma FreeStartsAgree(c: map<nat, Chunk>, d: map<nat, Chunk>, h: nat, g: nat)
    requires Tiled(c) && Tiled(d) && Coalesced(c) && SameCover(c, d)
    requires forall g :: (g in c && !c[g].use.Free?) <==> (g in d && !d[g].use.Free?)
    requires forall g :: g in c && !c[g].use.Free? ==> c[g].n == d[g].n
    requires h in c && c[h].use.Free? && g in d && g <= h < g + d[g].n
    ensures g == h && d[g].use.Free?
  {
    if g < h {
      assert Covered(d, h - 1);
      assert Covered(c, h - 1);
      var f :| f in c && f <= h - 1 < f + c[f].n;
    }
  }

  lemma FreeEndsAgree(c: map<nat, Chunk>, d: map<nat, Chunk>, h: nat)
    requires Tiled(c) && Tiled(d) && Coalesced(d) && SameCover(c, d)
    requires forall g :: (g in c && !c[g].use.Free?) <==> (g in d && !d[g].use.Free?)
    requires forall g :: g in c && !c[g].use.Free? ==> c[g].n == d[g].n
    requires h in c && c[h].use.Free? && h in d && d[h].use.Free?
    ensures d[h].n >= c[h].n
  {
    var e := h + d[h].n;
    if e < h + c[h].n {
      assert Covered(c, e);
      var f :| f in d && f <= e < f + d[f].n;
    }
  }

  // ---- The free lists after freeing ----

  /** The chunks merged leave their lists and the freed chunk goes to the head of the list of its size.
      No other list entry changes or moves. */
  lemma FreeFiles(s: Heap, h: nat, j: nat)
    requires Inv(s) && Releasable(s, h) && j <= N_HBLK_FLS
    ensures |s.lists| == N_HBLK_FLS + 1 == |FreeHblk(s, h).lists| && FreedFrom(s, h) <= FreedTo(s, h)
    ensures var g, lo, hi := h + s.chunks[h].n, FreedFrom(s, h), FreedTo(s, h);
      FreeHblk(s, h).lists[j] ==
        (if j == FlFromBlocks(hi - lo) then [lo] else [])
        + Del(if hi > g then Del(s.lists[j], g) else s.lists[j], lo)
  {
    hide InvExcept, FlFromBlocks, Del, FreeBefore, MergedUp, Merged, FreedFrom, FreedTo, SameCover, Weigh, Replaced;
    MergedUpLists(s, h, j);
    MergedLists(s, h, j);
    MergedSize(s, h);
    ChunkFacts(s, h, 0, 0);
  }

  lemma MergedUpLists(s: Heap, h: nat, j: nat)
    requires Inv(s) && Releasable(s, h) && j <= N_HBLK_FLS
    ensures |s.lists| == N_HBLK_FLS + 1
    ensures var g := h + s.chunks[h].n;
      MergedUp(s, h).lists[j] == if FreedTo(s, h) > g then Del(s.lists[j], g) else s.lists[j]
  {
    hide InvExcept, FlFromBlocks, Del;
    ChunkFacts(s, h, 0, 0);
    var g := h + s.chunks[h].n;
    ReleaseMerges(s, h, g);
    if IsFree(s, g) {
      ChunkFacts(s, g, 0, 0);
      DelElsewhere(s, g, j);
    }
  }

  /** A free chunk is on no list but its own, so deleting it from another changes nothing. */
  lemma DelElsewhere(s: Heap, g: nat, j: nat)
    requires Inv(s) && IsFree(s, g) && j <= N_HBLK_FLS
    ensures |s.lists| == N_HBLK_FLS + 1
    ensures j != FlFromBlocks(s.chunks[g].n) ==> Del(s.lists[j], g) == s.lists[j]
  {
    ChunkFacts(s, g, 0, 0);
    hide Tiled, Tagged, FlFromBlocks;
  }

  lemma DelUsed(s: Heap, h: nat, j: nat)
    requires Inv(s) && j <= N_HBLK_FLS && !IsFree(s, h)
    ensures |s.lists| == N_HBLK_FLS + 1 && Del(s.lists[j], h) == s.lists[j]
  {
    hide Tiled, Tagged, FlFromBlocks;
  }

  lemma MergedLists(s: Heap, h: nat, j: nat)
    requires Inv(s) && Releasable(s, h) && j <= N_HBLK_FLS
    ensures Merged(s, h).lists[j] == Del(MergedUp(s, h).lists[j], FreedFrom(s, h))
  {
    hide InvExcept, FlFromBlocks, Del, FreeBefore, MergedUp, Replaced, SameCover, Weigh;
    MergedUpResult(s, h);
    FreeBeforeStays(s, h);
    var s2, p := MergedUp(s, h), FreeBefore(s.chunks, h);
    if FreedFrom(s, h) == p && p != 0 {
      ChunkFacts(s2, p, 0, 0);
      DelElsewhere(s2, p, j);
    } else {
      DelUsed(s2, h, j);
    }
  }

  lemma MergedSize(s: Heap, h: nat)
    requires Inv(s) && Releasable(s, h)
    ensures FreedFrom(s, h) <= FreedTo(s, h)
    ensures Merged(s, h).chunks[FreedFrom(s, h)].n == FreedTo(s, h) - FreedFrom(s, h)
  {
    hide InvExcept, FlFromBlocks, FreeBefore, MergedUp, Replaced, SameCover, Weigh, Absorb;
    MergedUpResult(s, h);
    FreeBeforeStays(s, h);
    ChunkFacts(s, h, 0, 0);
    var s2, p := MergedUp(s, h), FreeBefore(s.chunks, h);
    if p != 0 && Survivor(s2, h, p) == p {
      PrevSize(s2, h, p);
    }
  }

  lemma PrevSize(s: Heap, h: nat, p: nat)
    requires h in s.chunks && IsFree(s, p) && h != p && p + s.chunks[p].n == h && |s.lists| == N_HBLK_FLS + 1
    requires Survivor(s, h, p) == p
    ensures AbsorbPrev(s, h, p).chunks[p].n == h + s.chunks[h].n - p
  {
    hide FlFromBlocks;
  }

  // ---- Adding memory ----

  /** A new section as `GC_add_to_heap` presents it to `GC_freehblk`. */
  function NewSection(s: Heap, h: nat, n: nat): Heap {
    Heap(s.chunks[h := Chunk(n, Taken, Core(n * HBLKSIZE, false, false))],
         s.lists, s.unmapped, s.large, s.dropped, s.drops)
  }

  /** The part of section [h, h + n) that `GC_add_to_heap` uses, as its first block and its size:
      neither blocks 0 and 1 nor the last block of the address space. */
  function Trim(h: nat, n: nat): (r: (nat, nat))
    requires h + n <= ADDRESS_BLOCKS
    decreases n
  {
    if n == 0 then (h, 0)
    else if h <= 1 then Trim(h + 1, n - 1)
    else if h + n == ADDRESS_BLOCKS then (h, n - 1)
    else (h, n)
  }

  /** Trimming takes away exactly the blocks the heap cannot use. */
  lemma {:induction false} TrimmedBlocks(h: nat, n: nat, b: nat)
    requires h + n <= ADDRESS_BLOCKS
    ensures var (f, k) := Trim(h, n);
      f <= b < f + k <==> h <= b < h + n && 2 <= b < ADDRESS_BLOCKS - 1
    decreases n
  {
    if n > 0 && h <= 1 {
      TrimmedBlocks(h + 1, n - 1, b);
    }
  }

  /** Blocks h to h + n are usable and not yet part of the heap. */
  ghost predicate Vacant(s: Heap, h: nat, n: nat) {
    && 2 <= h && 0 < n && h + n < ADDRESS_BLOCKS
    && forall b :: h <= b < h + n ==> !Covered(s.chunks, b)
  }

  lemma NewSectionKeeps(s: Heap, h: nat, n: nat)
    requires Inv(s) && Vacant(s, h, n)
    ensures h !in s.chunks && Inv(NewSection(s, h, n))
    ensures FreeBlocks(NewSection(s, h, n)) == FreeBlocks(s)
    ensures TotalBlocks(NewSection(s, h, n)) == TotalBlocks(s) + n
    ensures MappingAgrees(s) ==> MappingAgrees(NewSection(s, h, n))
  {
    var t := NewSection(s, h, n);
    SectionTiles(s, h, n);
    WeighPut(s.chunks, h, t.chunks[h], OnlyFree);
    WeighPut(s.chunks, h, t.chunks[h], All);
    if MappingAgrees(s) {
      SectionMapping(s, h, n);
    }
  }

  lemma SectionTiles(s: Heap, h: nat, n: nat)
    requires Tiled(s.chunks) && Vacant(s, h, n)
    ensures h !in s.chunks && Tiled(NewSection(s, h, n).chunks)
  {
    forall g | g in s.chunks
      ensures g + s.chunks[g].n <= h || h + n <= g
    {
      if g < h + n && h < g + s.chunks[g].n {
        assert Covered(s.chunks, if g < h then h else g);
      }
    }
  }

  lemma SectionMapping(s: Heap, h: nat, n: nat)
    requires h !in s.chunks && Vacant(s, h, n) && MappingAgrees(s)
    ensures MappingAgrees(NewSection(s, h, n))
  {
    var t := NewSection(s, h, n);
    forall b | b in t.unmapped
      ensures Covered(t.chunks, b)
    {
      var g :| g in s.chunks && g <= b < g + s.chunks[g].n;
      assert g in t.chunks && t.chunks[g] == s.chunks[g];
    }
  }

  /** The core of `GC_add_to_heap`. */
  ghost function AddToHeap(s: Heap, h: nat, n: nat): Heap
    requires Inv(s) && Vacant(s, h, n) && n < HALF_SPACE
  {
    NewSectionKeeps(s, h, n);
    FreeHblk(NewSection(s, h, n), h)
  }
}
