/** Reachable heaps at which the conditions of the main results matter. */
module Witnesses {
  import opened Words
  import opened FreeListIndex
  import opened Sequences
  import opened Chunks
  import BlackList
  import opened Allocation
  import opened Search
  import opened Allocator
  import opened Freeing
  import opened AllocFree
  import opened Unmapping
  import opened Runs

  function FreeChunk(n: nat, unmapped: bool): Chunk {
    Chunk(n, Free, Core(n * HBLKSIZE, unmapped, true))
  }

  // ---- Growing and unmapping ----

  /** A section that merges with neither neighbour becomes one more free chunk. */
  lemma GrowApart(s: Heap, h: nat, n: nat)
    requires Inv(s) && Vacant(s, h, n) && n < HALF_SPACE && !Joinable(s, h + n, n)
    requires forall p: nat :: EndsAt(s.chunks, p, h) ==> !Joinable(s, p, n)
    ensures |s.lists| == N_HBLK_FLS + 1
    ensures GrownBy(s, AddToHeap(s, h, n), h, n)
  {
    hide InvExcept, FlFromBlocks, Merged, FreedFrom, FreeBefore, Joinable, Covered, Weigh, MappingAgrees;
    NewSectionKeeps(s, h, n);
    SectionJoins(s, h, n);
    NothingMerges(NewSection(s, h, n), h);
  }

  /** t is s with h as one more free chunk of n blocks. */
  ghost predicate GrownBy(s: Heap, t: Heap, h: nat, n: nat)
    requires |s.lists| == N_HBLK_FLS + 1
  {
    var i := FlFromBlocks(n);
    && t.chunks == s.chunks[h := FreeChunk(n, false)] && t.lists == s.lists[i := [h] + s.lists[i]]
    && t.dropped == s.dropped
  }

  /** The new section merges with what its neighbours in s allow. */
  lemma SectionJoins(s: Heap, h: nat, n: nat)
    requires n > 0 && h !in s.chunks
    ensures var t, p := NewSection(s, h, n), FreeBefore(NewSection(s, h, n).chunks, h);
      && (Joinable(t, h + n, n) <==> Joinable(s, h + n, n))
      && (p != 0 ==> EndsAt(s.chunks, p, h) && (Joinable(t, p, n) <==> Joinable(s, p, n)))
  {
    hide FreeBefore;
  }

  lemma NothingMerges(s: Heap, h: nat)
    requires Inv(s) && Releasable(s, h) && !Joinable(s, h + s.chunks[h].n, s.chunks[h].n)
    requires var p := FreeBefore(s.chunks, h); p != 0 ==> !Joinable(s, p, s.chunks[h].n)
    ensures FreedFrom(s, h) == h && Merged(s, h) == Release(s, h)
  {
    assert s.chunks[h].n > 0;
    hide InvExcept, FreeBefore, Joinable;
    var p := FreeBefore(s.chunks, h);
    ReleaseMerges(s, h, h + s.chunks[h].n);
    if p != 0 {
      ReleaseMerges(s, h, p);
    }
  }

  /** Unmapping exactly the free chunk h. */
  lemma UnmapsOne(s: Heap, h: nat)
    requires Inv(s) && IsFree(s, h)
    ensures var t, k := UnmapOld(s, 0, {h}), s.chunks[h];
      && t.chunks == s.chunks[h := Chunk(k.n, Free, Core(k.core.sz, true, k.core.free))]
      && t.lists == s.lists && t.dropped == s.dropped
  {
    hide InvExcept, UnmapOld, SameCover, Weigh, MappingAgrees, FlFromBlocks;
    UnmapOldKeeps(s, 0, {h});
    UnmapOldReaches(s, 0, {h}, h);
    OnlyFlagged(s, UnmapOld(s, 0, {h}), h);
  }

  lemma OnlyFlagged(s: Heap, t: Heap, h: nat)
    requires UnmappedSome(s, t, {h}) && IsFree(s, h) && h in t.chunks && t.chunks[h].core.unmapped
    ensures var k := s.chunks[h];
      t.chunks == s.chunks[h := Chunk(k.n, Free, Core(k.core.sz, true, k.core.free))]
  {
    hide InvExcept, SameCover, Weigh, MappingAgrees;
    forall f | f in s.chunks
      ensures f in t.chunks && (f != h ==> t.chunks[f] == s.chunks[f])
    {
    }
  }

  // ---- Runs ----

  ghost predicate Reached(es: seq<Event>, t: Heap) {
    Leads(EmptyHeap(), es, t) && Sound(t)
  }

  lemma OneMoreEvent(s: Heap, es: seq<Event>, t: Heap, e: Event)
    requires Leads(s, es, t) && Inv(t) && Legal(t, e) && !Overrunning(t, e)
    ensures Leads(s, es + [e], Step(t, e))
    decreases |es|
  {
    hide InvExcept, Legal, Step, Overrunning;
    if es == [] {
      assert [e][1..] == [];
    } else {
      OneMoreEvent(Step(s, es[0]), es[1..], t, e);
      assert (es + [e])[1..] == es[1..] + [e];
    }
  }

  lemma ReachNext(es: seq<Event>, t: Heap, e: Event)
    requires Reached(es, t) && Legal(t, e) && !Overrunning(t, e)
    ensures Reached(es + [e], Step(t, e))
  {
    hide InvExcept, Legal, Step, Overrunning, Balanced, Settled, MappingAgrees;
    OneMoreEvent(EmptyHeap(), es, t, e);
    StepSound(t, e);
  }

  lemma GrowReaches(es: seq<Event>, s: Heap, h: nat, n: nat) returns (t: Heap)
    requires Reached(es, s) && Vacant(s, h, n) && n < HALF_SPACE && !Joinable(s, h + n, n)
    requires forall p: nat :: EndsAt(s.chunks, p, h) ==> !Joinable(s, p, n)
    ensures Reached(es + [Grow(h, n)], t) && |s.lists| == N_HBLK_FLS + 1 && GrownBy(s, t, h, n)
  {
    hide InvExcept, Vacant, AddToHeap, GrownBy, Leads, Balanced, Settled, MappingAgrees, Joinable;
    GrowApart(s, h, n);
    ReachNext(es, s, Grow(h, n));
    t := AddToHeap(s, h, n);
  }

  lemma UnmapReaches(es: seq<Event>, s: Heap, h: nat) returns (t: Heap)
    requires Reached(es, s) && IsFree(s, h)
    ensures Reached(es + [UnmapStale({h})], t) && t.lists == s.lists && t.dropped == s.dropped
    ensures var k := s.chunks[h]; t.chunks == s.chunks[h := Chunk(k.n, Free, Core(k.core.sz, true, k.core.free))]
  {
    hide InvExcept, UnmapOld, Leads, Balanced, Settled, MappingAgrees;
    UnmapsOne(s, h);
    ReachNext(es, s, UnmapStale({h}));
    t := UnmapOld(s, 0, {h});
  }

  /** A heap of one free chunk of n blocks at block 2. */
  ghost predicate Lone(s: Heap, n: nat, unmapped: bool) {
    && s.chunks == map[2 := FreeChunk(n, unmapped)] && s.dropped == 0 && |s.lists| == N_HBLK_FLS + 1
    && forall i :: 0 <= i <= N_HBLK_FLS ==> s.lists[i] == if i == FlFromBlocks(n) then [2] else []
  }

  lemma FirstSection(n: nat) returns (s: Heap)
    requires 0 < n < HALF_SPACE
    ensures Reached([Grow(2, n)], s) && Lone(s, n, false)
  {
    EmptySound();
    hide FlFromBlocks, Weigh, InvExcept, Balanced, Settled, MappingAgrees, Coalesced, AllMapped;
    assert Vacant(EmptyHeap(), 2, n);
    s := GrowReaches([], EmptyHeap(), 2, n);
    assert [] + [Grow(2, n)] == [Grow(2, n)];
  }

  lemma BeyondLone(s: Heap, n: nat, u: bool, h: nat, m: nat)
    requires Lone(s, n, u) && 2 + n <= h && 0 < m && h + m < ADDRESS_BLOCKS
    ensures Vacant(s, h, m) && !IsFree(s, h + m)
    ensures forall p: nat :: EndsAt(s.chunks, p, h) ==> p == 2 && h == 2 + n
  {
  }

  lemma UnmappedSection(n: nat) returns (s: Heap)
    requires 0 < n < HALF_SPACE
    ensures Reached([Grow(2, n), UnmapStale({2})], s) && Lone(s, n, true)
  {
    hide Reached, FlFromBlocks;
    var r := FirstSection(n);
    s := UnmapReaches([Grow(2, n)], r, 2);
    assert [Grow(2, n)] + [UnmapStale({2})] == [Grow(2, n), UnmapStale({2})];
  }

  // ---- Lists and neighbours ----

  /** Two sections of the least size that the collector asks for, each filed at the head, are not in
      order of address. */
  lemma ListOutOfOrder() returns (s: Heap)
    ensures Reached([Grow(2, 16), Grow(19, 16)], s) && |s.lists| == N_HBLK_FLS + 1
    ensures s.lists[16] == [19, 2] && !Ascending(s.lists[16])
  {
    hide Reached, Vacant;
    var r := FirstSection(16);
    BeyondLone(r, 16, false, 19, 16);
    s := GrowReaches([Grow(2, 16)], r, 19, 16);
    assert [Grow(2, 16)] + [Grow(19, 16)] == [Grow(2, 16), Grow(19, 16)];
    assert s.lists[16][0] == 19 && s.lists[16][1] == 2;
  }

  /** Two free chunks that together reach half the address space stay apart. */
  lemma TooLargeToMerge() returns (s: Heap)
    ensures Reached([Grow(2, 0x4000), Grow(0x4002, 0x4000)], s)
    ensures s.chunks == map[2 := FreeChunk(0x4000, false), 0x4002 := FreeChunk(0x4000, false)]
    ensures AllMapped(s) && !Coalesced(s.chunks)
  {
    hide Reached, Vacant, FlFromBlocks;
    var n := 0x4000;
    var r := FirstSection(n);
    BeyondLone(r, n, false, n + 2, n);
    s := GrowReaches([Grow(2, n)], r, n + 2, n);
    assert [Grow(2, n)] + [Grow(n + 2, n)] == [Grow(2, n), Grow(n + 2, n)];
    assert s.chunks[2].use.Free? && s.chunks[0x4002].use.Free?;
  }

  /** A free chunk stays apart from the unmapped one before it. */
  lemma UnmappedStaysApart() returns (s: Heap)
    ensures Reached([Grow(2, 16), UnmapStale({2}), Grow(18, 17)], s)
    ensures s.chunks == map[2 := FreeChunk(16, true), 18 := FreeChunk(17, false)] && !Coalesced(s.chunks)
    ensures s.dropped == 0 && |s.lists| == N_HBLK_FLS + 1
    ensures forall i :: 0 <= i <= N_HBLK_FLS ==> s.lists[i] == if i == 16 then [2] else if i == 17 then [18] else []
  {
    hide Reached, Vacant;
    var r := UnmappedSection(16);
    BeyondLone(r, 16, true, 18, 17);
    s := GrowReaches([Grow(2, 16), UnmapStale({2})], r, 18, 17);
    assert [Grow(2, 16), UnmapStale({2})] + [Grow(18, 17)] == [Grow(2, 16), UnmapStale({2}), Grow(18, 17)];
    assert s.chunks[2].use.Free? && s.chunks[18].use.Free?;
  }

  /** There, allocating the unmapped chunk and freeing it merges it with its successor: the free
      chunks are not the same afterwards. */
  lemma NotRestored(env: Env, p: Policy) returns (s: Heap)
    ensures Reached([Grow(2, 16), UnmapStale({2}), Grow(18, 17)], s)
    ensures var (t, r) := Allochblk(s, env, Request(16 * HBLKSIZE, UNCOLLECTABLE, false), p);
      && r == 2 && t.dropped == s.dropped && Inv(t) && Releasable(t, r)
      && !SameFree(s, FreeHblk(t, r)) && FreeHblk(t, r).large == s.large
  {
    hide InvExcept, Allochblk, FreeHblk, SameFree, Leads, Balanced, MappingAgrees, Settled;
    s := UnmappedStaysApart();
    NotRestoredFrom(s, env, Request(16 * HBLKSIZE, UNCOLLECTABLE, false), p);
  }

  lemma NotRestoredFrom(s: Heap, env: Env, req: Request, p: Policy)
    requires Sound(s) && s.chunks == map[2 := FreeChunk(16, true), 18 := FreeChunk(17, false)]
    requires ListOf(s, 16) == [2] && req == Request(16 * HBLKSIZE, UNCOLLECTABLE, false)
    ensures var (t, r) := Allochblk(s, env, req, p);
      && r == 2 && t.dropped == s.dropped && Inv(t) && Releasable(t, r)
      && !SameFree(s, FreeHblk(t, r)) && FreeHblk(t, r).large == s.large
  {
    hide InvExcept, Allochblk, AllocOverruns, FreeHblk, SameFree, Weigh, Balanced, MappingAgrees, Settled, FreeBefore;
    hide CarvedFrom, LeftFree, Carved;
    assert req.Need() == 16;
    ExactGrant(s, env, req, p, 2);
    AllocThenFree(s, env, req, p, 2);
    assert Joinable(s, 18, 16);
  }

  /** The exact pass takes the head of its list. */
  lemma ExactGrant(s: Heap, env: Env, req: Request, p: Policy, h: nat)
    requires Inv(s) && 0 < req.Need() <= UNIQUE_THRESHOLD && !req.AvoidsBlackList() && h > 0
    requires ListOf(s, req.Need()) == [h] && h in s.chunks && s.chunks[h].n == req.Need()
    ensures var (t, r) := Allochblk(s, env, req, p);
      r == h && t.dropped == s.dropped && !AllocOverruns(s, env, req, p)
  {
    hide InvExcept, Commit, ObjSzToBlocks;
    assert Stands(s, req.Need(), 0);
    assert ChunkAt(s, req.Need(), 0) == h;
    TooLarge(req);
    CommitWeighs(s, req, h, h, req.Need());
  }

  // ---- A chunk spared from being remapped ----

  /** Tables in which the n blocks from block 2 on, and those that hash like them, are marked. */
  function Listing(n: nat): BlackList.Table {
    if n == 0 then BlackList.Clear() else BlackList.Mark(Listing(n - 1), n + 1)
  }

  function FirstListed(n: nat): BlackList.View {
    var c := BlackList.Clear();
    BlackList.View(true, c, c, Listing(n), c)
  }

  lemma {:induction false} ListingMarks(n: nat, b: nat)
    requires n < 0x1000 && b < 0x1000
    ensures BlackList.Marked(Listing(n), b) <==> 2 <= b < n + 2
  {
    hide BlackList.Marked, BlackList.Mark, BlackList.Hash, BlackList.Clear;
    if n == 0 {
      BlackList.ClearHasNoMark(b);
    } else {
      ListingMarks(n - 1, b);
      OwnBucket(b);
      OwnBucket(n + 1);
      BlackList.MarkedAfterMark(Listing(n - 1), n + 1, b);
    }
  }

  lemma OwnBucket(b: nat)
    requires b <= 0x1000
    ensures BlackList.Hash(b) == b
  {
  }

  lemma FirstListedOnly(n: nat, b: nat)
    requires n < 0x1000 && b < 0x1000
    ensures FirstListed(n).Listed(b, 1) <==> 2 <= b < n + 2
  {
    hide BlackList.Marked, Listing, BlackList.Clear;
    ListingMarks(n, b);
    BlackList.ClearHasNoMark(b);
    assert FirstListed(n).Stack(b) <==> 2 <= b < n + 2;
  }

  /** When a large reserve leaves only reluctant splitting, a one-block request fails although the
      second block of the only chunk, unmapped, is free and clear. */
  lemma SparedNotTaken() returns (s: Heap)
    ensures Reached([Grow(2, 16), UnmapStale({2})], s)
    ensures var env, req := Env(FirstListed(1), 3 * HBLKSIZE, false), Request(1, 1, false);
      && req.Valid() && IsFree(s, 2) && HasRoom(env, req, 2, s.chunks[2].n) && !NoClearStart(env, req, 2, s.chunks[2].n)
      && Allochblk(s, env, req, Policy(false, 0, 16 * HBLKSIZE, 0, 0, true)).1 == 0
  {
    s := UnmappedSection(16);
    SparedInLone(s, Env(FirstListed(1), 3 * HBLKSIZE, false), Request(1, 1, false),
                 Policy(false, 0, 16 * HBLKSIZE, 0, 0, true));
  }

  lemma SparedInLone(s: Heap, env: Env, req: Request, p: Policy)
    requires Inv(s) && Lone(s, 16, true) && env.bl == FirstListed(1) && req == Request(1, 1, false)
    requires !p.useWholeHeap && p.munmap && p.maxLargeAllocd == 0 && p.finalizerBytesFreed <= p.heapsize / 16
    ensures req.Valid() && HasRoom(env, req, 2, 16) && !NoClearStart(env, req, 2, 16)
    ensures Allochblk(s, env, req, p).1 == 0
  {
    hide InvExcept, Allochblk, LimitInForce, FirstListed;
    FirstListedOnly(1, 2);
    FirstListedOnly(1, 3);
    assert req.Need() == 1 && !env.bl.Listed(3, req.Exposed());
    ReluctantLimit(s, env, req, p);
    AllocComplete(s, env, req, p);
  }

  lemma ReluctantLimit(s: Heap, env: Env, req: Request, p: Policy)
    requires Inv(s) && req.Valid() && !p.useWholeHeap && p.munmap && p.maxLargeAllocd == 0
    requires p.finalizerBytesFreed <= p.heapsize / 16
    ensures LimitInForce(s, env, req, p) == Limit(N_HBLK_FLS, AvoidSplitRemapped)
  {
    hide Filed, Tiled, Tagged, Nth, SameCover, Weigh;
    ListsKept(s, env, req, FlFromBlocks(req.Need()), NoSplit);
    var t := Nth(s, env, req, FlFromBlocks(req.Need()), NoSplit).0;
    BytesPositive(t.chunks, t.lists[N_HBLK_FLS]);
  }

  lemma {:induction false} BytesPositive(c: map<nat, Chunk>, l: seq<nat>)
    ensures BytesOn(c, l) >= 0
  {
    if l != [] {
      BytesPositive(c, l[1..]);
    }
  }

  // ---- Requests whose rounding wraps ----

  /** A size that is within a block of the end of the address space rounds up to no blocks. */
  function Wrapped(kind: nat): Request {
    Request(0xFFFF_8008, kind, false)
  }

  /** Such a request reaches the allocator for a caller who asks for 0xFFFF_8000 bytes. */
  lemma WrappedReaches()
    ensures RoundedBytes(0xFFFF_8000, true) == Wrapped(PTRFREE).sz >= 0xFFFF_8000
  {
    CallersLetWrap(0xFFFF_8000, true);
  }

  /** With the whole heap open to splitting, the walk for a request of no blocks reaches list i first
      if the lists before it are empty. */
  lemma {:induction false} ReachesList(s: Heap, env: Env, req: Request, i: nat, j: nat, l: Limit)
    requires Inv(s) && req.Valid() && i <= j <= l.list <= N_HBLK_FLS
    requires forall k :: i <= k < j ==> ListOf(s, k) == []
    ensures AllocFrom(s, env, req, i, l) == AllocFrom(s, env, req, j, l)
    ensures FromOverruns(s, env, req, i, l) <==> FromOverruns(s, env, req, j, l)
    decreases j - i
  {
    if i < j {
      EmptyListPassed(s, env, req, i, l.split);
      hide InvExcept, Nth, Overruns, ObjSzToBlocks;
      assert Nth(s, env, req, i, l.split) == (s, 0);
      ReachesList(s, env, req, i + 1, j, l);
    }
  }

  lemma EmptyListPassed(s: Heap, env: Env, req: Request, i: nat, split: MaySplit)
    requires Ready(s, req, i) && ListOf(s, i) == []
    ensures Nth(s, env, req, i, split) == (s, 0) && !Overruns(s, env, req, i, split)
  {
    hide InvExcept, ObjSzToBlocks;
  }

  /** A request of no blocks takes what the walk of the first non-empty list finds. */
  lemma EmptyRequest(s: Heap, env: Env, req: Request, p: Policy, j: nat)
    requires Inv(s) && req.Need() == 0 && p.useWholeHeap && 1 <= j <= N_HBLK_FLS
    requires forall k :: 0 <= k < j ==> ListOf(s, k) == []
    requires Nth(s, env, req, j, MayBeSplit).1 != 0
    ensures Allochblk(s, env, req, p) == Nth(s, env, req, j, MayBeSplit)
    ensures AllocOverruns(s, env, req, p) <==> Overruns(s, env, req, j, MayBeSplit)
  {
    hide InvExcept, Nth, Overruns, ObjSzToBlocks;
    TooLarge(req);
    assert ListOf(s, 0) == [];
    EmptyListPassed(s, env, req, 0, NoSplit);
    ReachesList(s, env, req, 1, j, Limit(N_HBLK_FLS, MayBeSplit));
  }

  /** The first chunk of list j is chosen at m. */
  lemma FirstChosen(s: Heap, env: Env, req: Request, j: nat, h: nat, m: nat)
    requires Inv(s) && req.Need() == 0 && 1 <= j <= N_HBLK_FLS && ListOf(s, j) == [h] && IsFree(s, h) && h > 0
    requires h <= m <= h + s.chunks[h].n && m < ADDRESS_BLOCKS
    requires if req.AvoidsBlackList()
      then !env.bl.Listed(m, 1) && forall b :: h <= b < m ==> env.bl.Listed(b, 1)
      else m == h
    ensures Nth(s, env, req, j, MayBeSplit).1 == m
    ensures Overruns(s, env, req, j, MayBeSplit) <==> m == h + s.chunks[h].n
  {
    hide InvExcept, ObjSzToBlocks, FlFromBlocks, Commit;
    assert Stands(s, j, 0) && ChunkAt(s, j, 0) == h;
    assert req.Exposed() == 1;
    ChunkFacts(s, h, 0, 0);
  }

  /** A pointer-free request that wraps is given the first chunk of the heap, which stays free. */
  lemma WrappedStaysFree(env: Env, p: Policy) returns (s: Heap)
    requires p.useWholeHeap
    ensures Reached([Grow(2, 16)], s)
    ensures var (t, r) := Allochblk(s, env, Wrapped(PTRFREE), p);
      r == 2 && Inv(t) && IsFree(t, 2) && t.chunks[2].n == 16 && t.large == s.large && !Serves(t, Wrapped(PTRFREE), r)
  {
    hide InvExcept, Allochblk, AllocOverruns, LeftFree, Leads, Balanced, MappingAgrees, Settled, Lone;
    s := FirstSection(16);
    assert !Wrapped(PTRFREE).AvoidsBlackList();
    WrappedInLone(s, env, Wrapped(PTRFREE), p, 2);
    OnePart(s, Allochblk(s, env, Wrapped(PTRFREE), p).0);
  }

  lemma OnePart(s: Heap, t: Heap)
    requires Lone(s, 16, false) && LeftFree(s.chunks, t.chunks, 2, 2)
    ensures IsFree(t, 2) && t.chunks[2].n == 16
  {
  }

  lemma WrappedInLone(s: Heap, env: Env, req: Request, p: Policy, m: nat)
    requires Inv(s) && Lone(s, 16, false) && req == Wrapped(req.kind) && p.useWholeHeap
    requires 2 <= m < 18
    requires if req.AvoidsBlackList()
      then !env.bl.Listed(m, 1) && forall b :: 2 <= b < m ==> env.bl.Listed(b, 1)
      else m == 2
    ensures var (t, r) := Allochblk(s, env, req, p);
      && !AllocOverruns(s, env, req, p) && r == m && Inv(t) && LeftFree(s.chunks, t.chunks, 2, m) && t.large == s.large
  {
    hide InvExcept, Allochblk, AllocOverruns, Nth, Overruns, LeftFree, RightPlace;
    assert req.Need() == 0;
    FirstChosen(s, env, req, 16, 2, m);
    EmptyRequest(s, env, req, p, 16);
    var h := EmptyGrant(s, env, req, p);
  }

  /** One that avoids the black list is given the first clear block of the chunk, and leaves the chunk
      in two adjacent free parts. */
  lemma WrappedCuts(p: Policy) returns (s: Heap)
    requires p.useWholeHeap
    ensures Reached([Grow(2, 16)], s)
    ensures var env, req := Env(FirstListed(1), 3 * HBLKSIZE, false), Wrapped(1);
      var (t, r) := Allochblk(s, env, req, p);
      r == 3 && Inv(t) && IsFree(t, 3) && !Coalesced(t.chunks)
  {
    s := FirstSection(16);
    var env := Env(FirstListed(1), 3 * HBLKSIZE, false);
    hide InvExcept, Allochblk, AllocOverruns, FirstListed, Balanced, MappingAgrees, Settled, Leads;
    FirstListedOnly(1, 2);
    FirstListedOnly(1, 3);
    WrappedInLone(s, env, Wrapped(1), p, 3);
    TwoParts(s, Allochblk(s, env, Wrapped(1), p).0);
  }

  lemma TwoParts(s: Heap, t: Heap)
    requires Lone(s, 16, false) && LeftFree(s.chunks, t.chunks, 2, 3)
    ensures IsFree(t, 3) && !Coalesced(t.chunks)
  {
    assert t.chunks[2].use.Free? && t.chunks[3].use.Free?;
  }

  /** Where the whole chunk is black-listed and the chunk after it is not, the header of that next,
      free chunk becomes that of a used chunk of no blocks: the heap is sound no more. */
  lemma WrappedOverwrites(p: Policy) returns (s: Heap)
    requires p.useWholeHeap
    ensures Reached([Grow(2, 16), UnmapStale({2}), Grow(18, 17)], s) && IsFree(s, 18)
    ensures var env, req := Env(FirstListed(16), 3 * HBLKSIZE, false), Wrapped(1);
      var (t, r) := Allochblk(s, env, req, p);
      AllocOverruns(s, env, req, p) && r == 18 && Overwritten(t, 18) && !Inv(t)
  {
    s := UnmappedStaysApart();
    OverwritesFrom(s, Env(FirstListed(16), 3 * HBLKSIZE, false), Wrapped(1), p);
  }

  lemma OverwritesFrom(s: Heap, env: Env, req: Request, p: Policy)
    requires Inv(s) && p.useWholeHeap && env.bl == FirstListed(16) && req == Wrapped(1)
    requires s.chunks == map[2 := FreeChunk(16, true), 18 := FreeChunk(17, false)]
    requires |s.lists| == N_HBLK_FLS + 1
    requires forall i :: 0 <= i <= N_HBLK_FLS ==> s.lists[i] == if i == 16 then [2] else if i == 17 then [18] else []
    ensures var (t, r) := Allochblk(s, env, req, p);
      AllocOverruns(s, env, req, p) && r == 18 && Overwritten(t, 18) && !Inv(t)
  {
    hide InvExcept, Allochblk, AllocOverruns, Nth, Overruns, FirstListed;
    assert req.Need() == 0;
    forall b | 2 <= b <= 18
      ensures env.bl.Listed(b, 1) <==> b < 18
    {
      FirstListedOnly(16, b);
    }
    FirstChosen(s, env, req, 16, 2, 18);
    EmptyRequest(s, env, req, p, 16);
    AllocKeeps(s, env, req, p);
  }
}
