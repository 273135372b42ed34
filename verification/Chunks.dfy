/** The heap seen as a tiling of chunks together with the 61 free lists, and the
    elementary changes the allocator makes to it. */
module Chunks {
  import opened Words
  import opened FreeListIndex
  import opened Sequences

  /** Header fields shared by every use: `hb_sz` and two of the flags. */
  datatype Core = Core(sz: nat, unmapped: bool, free: bool)

  /** Free chunks are on a list. A taken chunk is being worked on; once its forwarding
      counts are installed it is counted; a used chunk has a complete header. */
  datatype Use = Free | Taken | Counted | Used(kind: nat, ignoreOffPage: bool)

  datatype Chunk = Chunk(n: nat, use: Use, core: Core)

  datatype Heap = Heap(
    chunks: map<nat, Chunk>,   // by first block
    lists: seq<seq<nat>>,      // the free lists, in link order
    unmapped: set<nat>,        // blocks the operating system has unmapped
    large: int,                // GC_large_free_bytes
    dropped: nat,              // GC_bytes_dropped
    drops: nat)                // wholly black-listed single-block candidates met so far

  // ---- Invariants ----

  /** Chunks lie inside the address space, above block 0, and do not overlap. */
  ghost predicate Tiled(c: map<nat, Chunk>) {
    && (forall h :: h in c ==> 1 <= h && 1 <= c[h].n && h + c[h].n <= ADDRESS_BLOCKS)
    && (forall g, h :: g in c && h in c && g < h ==> g + c[g].n <= h)
  }

  predicate Tagged(k: Chunk) {
    match k.use
    case Free => k.core.free && k.core.sz == k.n * HBLKSIZE && k.n < HALF_SPACE
    case Used(_, _) => !k.core.free && !k.core.unmapped && ObjSzToBlocks(k.core.sz) == k.n < HALF_SPACE
    case _ => true
  }

  /** The list that holds chunk h of n blocks, when only chunk x is misfiled, on list w. */
  function Home(h: nat, n: nat, x: nat, w: nat): nat {
    if h == x then w else FlFromBlocks(n)
  }

  /** Every free chunk is on exactly one list, its home, exactly once; nothing else is listed. */
  ghost predicate Filed(c: map<nat, Chunk>, lists: seq<seq<nat>>, x: nat, w: nat)
    requires |lists| == N_HBLK_FLS + 1
  {
    && w <= N_HBLK_FLS
    && (forall i :: 0 <= i <= N_HBLK_FLS ==> NoDup(lists[i]))
    && (forall i, h {:trigger h in lists[i]} :: 0 <= i <= N_HBLK_FLS && h in lists[i] ==>
          h in c && c[h].use.Free? && i == Home(h, c[h].n, x, w))
    && (forall h :: h in c && c[h].use.Free? ==> h in lists[Home(h, c[h].n, x, w)])
  }

  /** The invariant with chunk x allowed on list w; x = 0 allows no exception. */
  ghost predicate InvExcept(s: Heap, x: nat, w: nat) {
    && |s.lists| == N_HBLK_FLS + 1
    && Tiled(s.chunks)
    && (forall h :: h in s.chunks ==> Tagged(s.chunks[h]))
    && Filed(s.chunks, s.lists, x, w)
  }

  ghost predicate Inv(s: Heap) {
    InvExcept(s, 0, 0)
  }

  predicate IsFree(s: Heap, h: nat) {
    h in s.chunks && s.chunks[h].use.Free?
  }

  predicate IsTaken(s: Heap, h: nat) {
    h in s.chunks && s.chunks[h].use.Taken?
  }

  /** No chunk but h is being worked on. */
  ghost predicate SettledBut(c: map<nat, Chunk>, h: nat) {
    forall f :: f in c && f != h ==> c[f].use.Free? || c[f].use.Used?
  }

  /** Every chunk is free or used. */
  ghost predicate Settled(c: map<nat, Chunk>) {
    SettledBut(c, 0)
  }

  ghost predicate Covered(c: map<nat, Chunk>, b: nat) {
    exists h :: h in c && h <= b < h + c[h].n
  }

  ghost predicate SameCover(c: map<nat, Chunk>, d: map<nat, Chunk>) {
    forall b: nat :: Covered(c, b) <==> Covered(d, b)
  }

  lemma CoverTransitive(c: map<nat, Chunk>, d: map<nat, Chunk>, e: map<nat, Chunk>)
    requires SameCover(c, d) && SameCover(d, e)
    ensures SameCover(c, e)
  {
    hide Covered;
  }

  function Blocks(h: nat, n: nat): (r: set<nat>)
    ensures forall b :: b in r <==> h <= b < h + n
  {
    if n == 0 then {} else Blocks(h, n - 1) + {h + n - 1}
  }

  /** Every chunk is wholly mapped or wholly unmapped, as its flag says, and nothing
      outside the chunks is unmapped. */
  ghost predicate MappingAgrees(s: Heap) {
    && (forall h, b :: h in s.chunks && h <= b < h + s.chunks[h].n ==>
          (b in s.unmapped <==> s.chunks[h].core.unmapped))
    && (forall b :: b in s.unmapped ==> Covered(s.chunks, b))
  }

  // ---- Block counts ----

  datatype Which = All | OnlyFree | OnlyUsed

  /** Blocks that chunk k contributes to a count. */
  function Weight(k: Chunk, w: Which): nat {
    match w
    case All => k.n
    case OnlyFree => if k.use.Free? then k.n else 0
    case OnlyUsed => if k.use.Free? then 0 else k.n
  }

  ghost function Weigh(c: map<nat, Chunk>, w: Which): nat
    decreases |c|
  {
    if c == map[] then 0
    else
      var h :| h in c;
      assert |c - {h}| < |c|;
      Weight(c[h], w) + Weigh(c - {h}, w)
  }

  ghost function FreeBlocks(s: Heap): nat {
    Weigh(s.chunks, OnlyFree)
  }

  ghost function TotalBlocks(s: Heap): nat {
    Weigh(s.chunks, All)
  }

  /** The global counter equals the bytes in free chunks. */
  ghost predicate Balanced(s: Heap) {
    s.large == FreeBlocks(s) * HBLKSIZE
  }

  /** A count does not depend on the order in which chunks are taken. */
  lemma {:induction false} WeighTake(c: map<nat, Chunk>, h: nat, w: Which)
    requires h in c
    ensures Weigh(c, w) == Weight(c[h], w) + Weigh(c - {h}, w)
    decreases |c|
  {
    var g :| g in c && Weigh(c, w) == Weight(c[g], w) + Weigh(c - {g}, w);
    if g != h {
      assert |c - {g}| < |c|;
      assert |c - {h}| < |c|;
      WeighTake(c - {g}, h, w);
      WeighTake(c - {h}, g, w);
      assert c - {g} - {h} == c - {h} - {g};
    }
  }

  lemma WeighPut(c: map<nat, Chunk>, h: nat, k: Chunk, w: Which)
    ensures Weigh(c[h := k], w) == Weigh(c, w) + Weight(k, w) - if h in c then Weight(c[h], w) else 0
  {
    WeighTake(c[h := k], h, w);
    if h in c {
      WeighTake(c, h, w);
      assert c[h := k] - {h} == c - {h};
    } else {
      assert c[h := k] - {h} == c;
    }
  }

  lemma WeighTwo(c: map<nat, Chunk>, g: nat, h: nat)
    requires g in c && h in c && g != h
    ensures c[g].n + c[h].n <= Weigh(c, All)
  {
    WeighTake(c, g, All);
    WeighTake(c - {g}, h, All);
  }

  /** Free and used blocks make up the whole heap. */
  lemma {:induction false} FreePlusUsed(c: map<nat, Chunk>)
    ensures Weigh(c, OnlyFree) + Weigh(c, OnlyUsed) == Weigh(c, All)
    decreases |c|
  {
    if c != map[] {
      var h :| h in c;
      WeighTake(c, h, All);
      WeighTake(c, h, OnlyFree);
      WeighTake(c, h, OnlyUsed);
      assert |c - {h}| < |c|;
      FreePlusUsed(c - {h});
    }
  }

  // ---- Elementary changes ----

  /** `GC_remove_from_fl_at`: chunk h leaves list i. */
  function Take(s: Heap, h: nat, i: nat): Heap
    requires h in s.chunks && i < |s.lists|
  {
    Heap(s.chunks[h := s.chunks[h].(use := Taken)], s.lists[i := Del(s.lists[i], h)],
         s.unmapped, s.large, s.dropped, s.drops)
  }

  /** `GC_add_to_fl`: chunk h goes to the head of the list for its size. */
  function Push(s: Heap, h: nat): Heap
    requires h in s.chunks && |s.lists| == N_HBLK_FLS + 1
  {
    var k := s.chunks[h];
    var i := FlFromBlocks(k.n);
    Heap(s.chunks[h := Chunk(k.n, Free, Core(k.core.sz, k.core.unmapped, true))], s.lists[i := [h] + s.lists[i]],
         s.unmapped, s.large, s.dropped, s.drops)
  }

  /** Taken chunk h absorbs the taken chunk g that follows it. */
  function Join(s: Heap, h: nat, g: nat): Heap
    requires h in s.chunks && g in s.chunks
  {
    var k, l := s.chunks[h], s.chunks[g];
    Heap((s.chunks - {g})[h := Chunk(k.n + l.n, Taken, Core(k.core.sz + l.core.sz, k.core.unmapped, k.core.free))],
         s.lists, s.unmapped, s.large, s.dropped, s.drops)
  }

  /** A fresh mapped header, not marked free, cuts taken chunk h after its first m blocks; for m = 0
      it displaces the header of h. */
  function Cut(s: Heap, h: nat, m: nat): Heap
    requires h in s.chunks && m < s.chunks[h].n
  {
    var k := s.chunks[h];
    Heap(s.chunks[h := Chunk(m, k.use, k.core)]
                 [h + m := Chunk(k.n - m, Taken, Core((k.n - m) * HBLKSIZE, false, false))],
         s.lists, s.unmapped, s.large, s.dropped, s.drops)
  }

  /** m, the header of the upper part of chunk h, takes over h's place on list i. The upper part may be empty. */
  function Supplant(s: Heap, h: nat, m: nat, i: nat): Heap
    requires h in s.chunks && h < m <= h + s.chunks[h].n && i < |s.lists|
  {
    var k := s.chunks[h];
    Heap(s.chunks[h := Chunk(m - h, Taken, Core((m - h) * HBLKSIZE, k.core.unmapped, k.core.free))]
                 [m := Chunk(k.n - (m - h), Free, Core((k.n - (m - h)) * HBLKSIZE, false, true))],
         s.lists[i := Replace(s.lists[i], h, m)], s.unmapped, s.large, s.dropped, s.drops)
  }

  /** `GC_split_block`: m replaces h on list i and h is filed by its new size. */
  function Split(s: Heap, h: nat, m: nat, i: nat): Heap
    requires h in s.chunks && h < m <= h + s.chunks[h].n
    requires |s.lists| == N_HBLK_FLS + 1 && i <= N_HBLK_FLS
  {
    Push(Supplant(s, h, m, i), h)
  }

  /** Header and mapping change together for the whole chunk h. */
  function SetUnmapped(s: Heap, h: nat, u: bool): Heap
    requires h in s.chunks
  {
    var k := s.chunks[h];
    Heap(s.chunks[h := Chunk(k.n, k.use, Core(k.core.sz, u, k.core.free))], s.lists,
         if u then s.unmapped + Blocks(h, k.n) else s.unmapped - Blocks(h, k.n),
         s.large, s.dropped, s.drops)
  }

  /** `setup_header` on a taken chunk. */
  function SetUp(s: Heap, h: nat, sz: nat, kind: nat, ignoreOffPage: bool): Heap
    requires h in s.chunks
  {
    Heap(s.chunks[h := Chunk(s.chunks[h].n, Used(kind, ignoreOffPage), Core(sz, false, false))],
         s.lists, s.unmapped, s.large, s.dropped, s.drops)
  }

  /** The heap before any memory has been added. */
  function EmptyHeap(): Heap {
    Heap(map[], seq(N_HBLK_FLS + 1, _ => []), {}, 0, 0, 0)
  }

  // ---- Positions on the lists ----

  function ListOf(s: Heap, i: nat): seq<nat> {
    if i < |s.lists| then s.lists[i] else []
  }

  ghost predicate Stands(s: Heap, i: nat, k: nat) {
    Inv(s) && i <= N_HBLK_FLS && k < |ListOf(s, i)|
  }

  lemma StandsOnFree(s: Heap, i: nat, k: nat)
    requires Stands(s, i, k)
    ensures var h := ListOf(s, i)[k];
      h > 0 && IsFree(s, h) && FlFromBlocks(s.chunks[h].n) == i
  {
    assert ListOf(s, i)[k] in s.lists[i];
  }

  /** The free chunk at position k of list i. */
  ghost function ChunkAt(s: Heap, i: nat, k: nat): (h: nat)
    requires Stands(s, i, k)
    ensures h > 0 && IsFree(s, h) && FlFromBlocks(s.chunks[h].n) == i && h == ListOf(s, i)[k]
  {
    StandsOnFree(s, i, k);
    ListOf(s, i)[k]
  }

  lemma InItsList(s: Heap, h: nat)
    requires Inv(s) && IsFree(s, h)
    ensures FlFromBlocks(s.chunks[h].n) <= N_HBLK_FLS && h in ListOf(s, FlFromBlocks(s.chunks[h].n))
  {
  }

  lemma ChunkFacts(s: Heap, h: nat, x: nat, w: nat)
    requires InvExcept(s, x, w) && h in s.chunks
    ensures |s.lists| == N_HBLK_FLS + 1 && w <= N_HBLK_FLS
    ensures 1 <= h && 1 <= s.chunks[h].n && h + s.chunks[h].n <= ADDRESS_BLOCKS && Tagged(s.chunks[h])
    ensures s.chunks[h].use.Free? ==> Home(h, s.chunks[h].n, x, w) <= N_HBLK_FLS
  {
    hide Filed, Tagged, FlFromBlocks;
    FiledWithin(s, x, w);
  }

  lemma ChunksTiled(s: Heap)
    requires Inv(s)
    ensures Tiled(s.chunks)
  {
  }

  lemma FiledWithin(s: Heap, x: nat, w: nat)
    requires InvExcept(s, x, w)
    ensures w <= N_HBLK_FLS
  {
  }

  // ---- The elementary changes keep the invariant ----

  lemma NoChunkAtZero(s: Heap, x: nat, w: nat)
    requires InvExcept(s, x, w)
    ensures 0 !in s.chunks
  {
  }

  lemma TakeFiles(s: Heap, h: nat, i: nat, x: nat, w: nat)
    requires InvExcept(s, x, w) && IsFree(s, h) && i == Home(h, s.chunks[h].n, x, w)
    ensures var t := Take(s, h, i);
      Filed(t.chunks, t.lists, x, w) && (h == x ==> Filed(t.chunks, t.lists, 0, 0))
  {
    hide ObjSzToBlocks, FlFromBlocks, Tiled, Tagged, NoDup, Del;
    ChunkFacts(s, h, x, w);
    NoChunkAtZero(s, x, w);
    var t := Take(s, h, i);
    DelElements(s.lists[i], h);
    assert forall j :: 0 <= j <= N_HBLK_FLS && j != i ==> t.lists[j] == s.lists[j] && h !in t.lists[j];
  }

  lemma TakeKeeps(s: Heap, h: nat, i: nat, x: nat, w: nat)
    requires InvExcept(s, x, w) && IsFree(s, h) && i == Home(h, s.chunks[h].n, x, w)
    ensures InvExcept(Take(s, h, i), x, w) && (h == x ==> Inv(Take(s, h, i)))
    ensures SameCover(s.chunks, Take(s, h, i).chunks)
  {
    TakeFiles(s, h, i, x, w);
    hide ObjSzToBlocks, FlFromBlocks, Filed;
    var t := Take(s, h, i);
    assert forall g :: g in s.chunks <==> g in t.chunks;
    assert forall g :: g in s.chunks ==> t.chunks[g].n == s.chunks[g].n;
  }

  lemma PushFiles(s: Heap, h: nat, x: nat, w: nat)
    requires InvExcept(s, x, w) && IsTaken(s, h) && h != x
    ensures var t := Push(s, h); Filed(t.chunks, t.lists, x, w)
  {
    hide ObjSzToBlocks, FlFromBlocks, Tiled, Tagged, NoDup;
    var t, i := Push(s, h), FlFromBlocks(s.chunks[h].n);
    PushElements(s.lists[i], h);
    assert forall j :: 0 <= j <= N_HBLK_FLS && j != i ==> t.lists[j] == s.lists[j];
  }

  lemma PushKeeps(s: Heap, h: nat, x: nat, w: nat)
    requires InvExcept(s, x, w) && IsTaken(s, h) && h != x
    requires s.chunks[h].core.sz == s.chunks[h].n * HBLKSIZE && s.chunks[h].n < HALF_SPACE
    ensures InvExcept(Push(s, h), x, w)
    ensures SameCover(s.chunks, Push(s, h).chunks)
  {
    hide ObjSzToBlocks, FlFromBlocks, Filed;
    PushFiles(s, h, x, w);
    var t := Push(s, h);
    assert forall g :: g in s.chunks <==> g in t.chunks;
    assert forall g :: g in s.chunks ==> t.chunks[g].n == s.chunks[g].n;
  }

  /** Filing at the head keeps a list sorted by address exactly if the list was empty or the chunk
      lies below its head. */
  lemma PushSorts(s: Heap, h: nat)
    requires h in s.chunks && |s.lists| == N_HBLK_FLS + 1
    ensures var i := FlFromBlocks(s.chunks[h].n);
      Ascending(s.lists[i]) ==> (Ascending(Push(s, h).lists[i]) <==> s.lists[i] == [] || h < s.lists[i][0])
  {
    var i := FlFromBlocks(s.chunks[h].n);
    if Ascending(s.lists[i]) {
      PushAscends(s.lists[i], h);
    }
  }

  /** In d, the chunk h of c is cut in two at m. */
  ghost predicate CutAt(c: map<nat, Chunk>, d: map<nat, Chunk>, h: nat, m: nat) {
    && h in c && h < m < h + c[h].n && m !in c && h in d && m in d
    && d[h].n == m - h && d[m].n == h + c[h].n - m
    && (forall f :: f in d <==> f in c || f == m)
    && (forall f :: f in c && f != h ==> d[f] == c[f])
  }

  lemma CutTiles(c: map<nat, Chunk>, d: map<nat, Chunk>, h: nat, m: nat)
    requires CutAt(c, d, h, m)
    ensures Tiled(c) <==> Tiled(d)
  {
  }

  lemma CutCovers(c: map<nat, Chunk>, d: map<nat, Chunk>, h: nat, m: nat)
    requires CutAt(c, d, h, m)
    ensures SameCover(c, d) && SameCover(d, c)
  {
    forall b: nat
      ensures Covered(c, b) <==> Covered(d, b)
    {
      if Covered(c, b) {
        var f :| f in c && f <= b < f + c[f].n;
        assert f in d && m in d;
        assert if f != h then d[f] == c[f] else if b < m then b < h + d[h].n else m <= b < m + d[m].n;
      }
      if Covered(d, b) {
        var f :| f in d && f <= b < f + d[f].n;
        assert if f == m then h in c && h <= b < h + c[h].n else f in c && b < f + c[f].n;
      }
    }
  }

  lemma NoChunkInside(c: map<nat, Chunk>, h: nat, m: nat)
    requires Tiled(c) && h in c && h <= m < h + c[h].n
    ensures m != h ==> m !in c
  {
  }

  lemma NothingInside(s: Heap, h: nat, m: nat, x: nat, w: nat)
    requires InvExcept(s, x, w) && h in s.chunks && h < m < h + s.chunks[h].n
    ensures m !in s.chunks
  {
    hide Filed, Tagged;
    NoChunkInside(s.chunks, h, m);
  }

  lemma JoinKeeps(s: Heap, h: nat, g: nat, x: nat, w: nat)
    requires InvExcept(s, x, w) && IsTaken(s, h) && IsTaken(s, g) && g == h + s.chunks[h].n
    ensures InvExcept(Join(s, h, g), x, w)
    ensures CutAt(Join(s, h, g).chunks, s.chunks, h, g)
    ensures SameCover(s.chunks, Join(s, h, g).chunks)
  {
    var t := Join(s, h, g);
    assert CutAt(t.chunks, s.chunks, h, g);
    CutTiles(t.chunks, s.chunks, h, g);
    CutCovers(t.chunks, s.chunks, h, g);
  }

  lemma CutKeeps(s: Heap, h: nat, m: nat, x: nat, w: nat)
    requires InvExcept(s, x, w) && IsTaken(s, h) && 0 < m < s.chunks[h].n && h + m != x
    ensures InvExcept(Cut(s, h, m), x, w)
    ensures CutAt(s.chunks, Cut(s, h, m).chunks, h, h + m)
    ensures SameCover(s.chunks, Cut(s, h, m).chunks)
  {
    var t := Cut(s, h, m);
    NoChunkInside(s.chunks, h, h + m);
    CutTiles(s.chunks, t.chunks, h, h + m);
    CutCovers(s.chunks, t.chunks, h, h + m);
  }

  /** A fresh header displacing that of taken chunk h leaves everything else. */
  lemma RenewKeeps(s: Heap, h: nat)
    requires Inv(s) && IsTaken(s, h)
    ensures s.chunks[h].n > 0
    ensures var t := Cut(s, h, 0);
      && Inv(t) && SameCover(s.chunks, t.chunks) && FreeBlocks(t) == FreeBlocks(s) && TotalBlocks(t) == TotalBlocks(s)
      && t.chunks == s.chunks[h := Chunk(s.chunks[h].n, Taken, Core(s.chunks[h].n * HBLKSIZE, false, false))]
  {
    hide Filed, Tagged, Covered, FlFromBlocks, Weigh;
    ChunkFacts(s, h, 0, 0);
    var t := Cut(s, h, 0);
    assert t.chunks == s.chunks[h := t.chunks[h]];
    RenewFiles(s, h);
    SameSizeCovers(s, t, h);
    SameSizeWeighs(s.chunks, h, t.chunks[h]);
  }

  lemma RenewFiles(s: Heap, h: nat)
    requires Inv(s) && IsTaken(s, h) && s.chunks[h].n > 0
    ensures Filed(Cut(s, h, 0).chunks, s.lists, 0, 0) && Tiled(Cut(s, h, 0).chunks)
    ensures forall f :: f in Cut(s, h, 0).chunks ==> Tagged(Cut(s, h, 0).chunks[f])
  {
    hide FlFromBlocks, NoDup;
  }

  lemma SameSizeCovers(s: Heap, t: Heap, h: nat)
    requires h in s.chunks && h in t.chunks && t.chunks == s.chunks[h := t.chunks[h]] && t.chunks[h].n == s.chunks[h].n
    ensures SameCover(s.chunks, t.chunks)
  {
    assert forall g :: g in s.chunks <==> g in t.chunks;
    assert forall g :: g in s.chunks ==> t.chunks[g].n == s.chunks[g].n;
  }

  lemma SupplantKeeps(s: Heap, h: nat, m: nat, i: nat)
    requires Inv(s) && IsFree(s, h) && h < m < h + s.chunks[h].n && i == FlFromBlocks(s.chunks[h].n)
    ensures InvExcept(Supplant(s, h, m, i), m, i)
    ensures CutAt(s.chunks, Supplant(s, h, m, i).chunks, h, m)
    ensures SameCover(s.chunks, Supplant(s, h, m, i).chunks)
  {
    var t := Supplant(s, h, m, i);
    NoChunkInside(s.chunks, h, m);
    assert CutAt(s.chunks, t.chunks, h, m);
    CutTiles(s.chunks, t.chunks, h, m);
    CutCovers(s.chunks, t.chunks, h, m);
    SupplantFiles(s, h, m, i);
  }

  lemma SupplantFiles(s: Heap, h: nat, m: nat, i: nat)
    requires Inv(s) && IsFree(s, h) && h < m < h + s.chunks[h].n && i == FlFromBlocks(s.chunks[h].n)
    requires m !in s.chunks
    ensures Filed(Supplant(s, h, m, i).chunks, Supplant(s, h, m, i).lists, m, i)
  {
    var t := Supplant(s, h, m, i);
    ReplaceElements(s.lists[i], h, m);
    forall j | 0 <= j <= N_HBLK_FLS && j != i
      ensures t.lists[j] == s.lists[j] && h !in t.lists[j] && m !in t.lists[j]
    {
    }
  }

  /** A split leaves exactly one chunk that may be on the wrong list: the new one, on list i. */
  lemma SplitMisfilesOne(s: Heap, h: nat, m: nat, i: nat)
    requires Inv(s) && IsFree(s, h) && h < m < h + s.chunks[h].n && i == FlFromBlocks(s.chunks[h].n)
    ensures InvExcept(Split(s, h, m, i), m, i)
    ensures SameCover(s.chunks, Split(s, h, m, i).chunks)
  {
    SupplantKeeps(s, h, m, i);
    PushKeeps(Supplant(s, h, m, i), h, m, i);
  }

  lemma SetUpKeeps(s: Heap, h: nat, sz: nat, kind: nat, ignoreOffPage: bool, x: nat, w: nat)
    requires InvExcept(s, x, w) && h in s.chunks && (s.chunks[h].use.Taken? || s.chunks[h].use.Counted?)
    requires ObjSzToBlocks(sz) == s.chunks[h].n < HALF_SPACE
    ensures InvExcept(SetUp(s, h, sz, kind, ignoreOffPage), x, w)
    ensures SameCover(s.chunks, SetUp(s, h, sz, kind, ignoreOffPage).chunks)
  {
    var t := SetUp(s, h, sz, kind, ignoreOffPage);
    assert forall g :: g in s.chunks <==> g in t.chunks;
    assert forall g :: g in s.chunks ==> t.chunks[g].n == s.chunks[g].n;
  }

  lemma SetUnmappedKeeps(s: Heap, h: nat, u: bool, x: nat, w: nat)
    requires InvExcept(s, x, w) && h in s.chunks && !s.chunks[h].use.Used?
    ensures InvExcept(SetUnmapped(s, h, u), x, w)
    ensures SameCover(s.chunks, SetUnmapped(s, h, u).chunks)
  {
    var t := SetUnmapped(s, h, u);
    assert forall g :: g in s.chunks <==> g in t.chunks;
    assert forall g :: g in s.chunks ==> t.chunks[g].n == s.chunks[g].n;
  }

  // ---- The elementary changes and the counts ----

  lemma TakeWeighs(s: Heap, h: nat, i: nat)
    requires IsFree(s, h) && i < |s.lists|
    ensures FreeBlocks(Take(s, h, i)) == FreeBlocks(s) - s.chunks[h].n
    ensures TotalBlocks(Take(s, h, i)) == TotalBlocks(s)
  {
    WeighPut(s.chunks, h, s.chunks[h].(use := Taken), OnlyFree);
    WeighPut(s.chunks, h, s.chunks[h].(use := Taken), All);
  }

  lemma PushWeighs(s: Heap, h: nat)
    requires h in s.chunks && !s.chunks[h].use.Free? && |s.lists| == N_HBLK_FLS + 1
    ensures FreeBlocks(Push(s, h)) == FreeBlocks(s) + s.chunks[h].n
    ensures TotalBlocks(Push(s, h)) == TotalBlocks(s)
  {
    WeighPut(s.chunks, h, Push(s, h).chunks[h], OnlyFree);
    WeighPut(s.chunks, h, Push(s, h).chunks[h], All);
  }

  lemma JoinWeighs(s: Heap, h: nat, g: nat)
    requires IsTaken(s, h) && IsTaken(s, g) && g != h
    ensures FreeBlocks(Join(s, h, g)) == FreeBlocks(s)
    ensures TotalBlocks(Join(s, h, g)) == TotalBlocks(s)
  {
    var k := Join(s, h, g).chunks[h];
    WeighTake(s.chunks, g, OnlyFree);
    WeighTake(s.chunks, g, All);
    WeighPut(s.chunks - {g}, h, k, OnlyFree);
    WeighPut(s.chunks - {g}, h, k, All);
  }

  /** Putting the two parts of a cut chunk into the table. */
  lemma WeighCut(c: map<nat, Chunk>, h: nat, k: Chunk, m: nat, l: Chunk, w: Which)
    requires h in c && m !in c
    ensures Weigh(c[h := k][m := l], w) == Weigh(c, w) - Weight(c[h], w) + Weight(k, w) + Weight(l, w)
  {
    WeighPut(c, h, k, w);
    WeighPut(c[h := k], m, l, w);
  }

  lemma CutWeighs(s: Heap, h: nat, m: nat)
    requires IsTaken(s, h) && 0 < m < s.chunks[h].n && h + m !in s.chunks
    ensures FreeBlocks(Cut(s, h, m)) == FreeBlocks(s)
    ensures TotalBlocks(Cut(s, h, m)) == TotalBlocks(s)
  {
    var d := Cut(s, h, m).chunks;
    WeighCut(s.chunks, h, d[h], h + m, d[h + m], OnlyFree);
    WeighCut(s.chunks, h, d[h], h + m, d[h + m], All);
  }

  lemma SplitWeighs(s: Heap, h: nat, m: nat, i: nat)
    requires IsFree(s, h) && h < m < h + s.chunks[h].n && m !in s.chunks
    requires |s.lists| == N_HBLK_FLS + 1 && i <= N_HBLK_FLS
    ensures FreeBlocks(Split(s, h, m, i)) == FreeBlocks(s)
    ensures TotalBlocks(Split(s, h, m, i)) == TotalBlocks(s)
  {
    var t := Supplant(s, h, m, i);
    WeighCut(s.chunks, h, t.chunks[h], m, t.chunks[m], OnlyFree);
    WeighCut(s.chunks, h, t.chunks[h], m, t.chunks[m], All);
    PushWeighs(t, h);
  }

  /** Replacing a chunk by one of the same size and freedom changes no count. */
  lemma SameSizeWeighs(c: map<nat, Chunk>, h: nat, k: Chunk)
    requires h in c && k.n == c[h].n && (k.use.Free? <==> c[h].use.Free?)
    ensures forall w :: Weigh(c[h := k], w) == Weigh(c, w)
  {
    forall w
      ensures Weigh(c[h := k], w) == Weigh(c, w)
    {
      WeighPut(c, h, k, w);
    }
  }

  // ---- The elementary changes and the mapping ----

  /** Rewriting one header without its size and mapping flag. */
  lemma SameFlags(s: Heap, t: Heap, h: nat)
    requires MappingAgrees(s) && t.unmapped == s.unmapped
    requires h in s.chunks && h in t.chunks && t.chunks == s.chunks[h := t.chunks[h]]
    requires t.chunks[h].n == s.chunks[h].n && t.chunks[h].core.unmapped == s.chunks[h].core.unmapped
    ensures MappingAgrees(t)
  {
    forall b | b in t.unmapped
      ensures Covered(t.chunks, b)
    {
      var g :| g in s.chunks && g <= b < g + s.chunks[g].n;
      assert g in t.chunks && t.chunks[g].n == s.chunks[g].n;
    }
  }

  /** A cut, or its inverse, between parts that agree on their flag. */
  lemma CutMapping(s: Heap, t: Heap, h: nat, m: nat)
    requires CutAt(s.chunks, t.chunks, h, m) && t.unmapped == s.unmapped
    requires t.chunks[h].core.unmapped == s.chunks[h].core.unmapped == t.chunks[m].core.unmapped
    ensures MappingAgrees(s) <==> MappingAgrees(t)
  {
    CutCovers(s.chunks, t.chunks, h, m);
    if MappingAgrees(s) {
      forall f, b | f in t.chunks && f <= b < f + t.chunks[f].n
        ensures b in t.unmapped <==> t.chunks[f].core.unmapped
      {
        assert if f == m then h <= b < h + s.chunks[h].n else f in s.chunks && b < f + s.chunks[f].n;
      }
    }
    if MappingAgrees(t) {
      forall f, b | f in s.chunks && f <= b < f + s.chunks[f].n
        ensures b in s.unmapped <==> s.chunks[f].core.unmapped
      {
        assert if f == h && m <= b then b < m + t.chunks[m].n else f in t.chunks && b < f + t.chunks[f].n;
      }
    }
  }

  /** Mapping or unmapping a whole chunk together with its flag. */
  lemma UnmappedMapping(s: Heap, h: nat, u: bool)
    requires Tiled(s.chunks) && h in s.chunks && MappingAgrees(s)
    ensures MappingAgrees(SetUnmapped(s, h, u))
  {
    hide Blocks;
    var t := SetUnmapped(s, h, u);
    forall b | b in t.unmapped
      ensures Covered(t.chunks, b)
    {
      if b in s.unmapped {
        var g :| g in s.chunks && g <= b < g + s.chunks[g].n;
        assert g in t.chunks && t.chunks[g].n == s.chunks[g].n;
      } else {
        assert h in t.chunks && h <= b < h + t.chunks[h].n;
      }
    }
  }
}
