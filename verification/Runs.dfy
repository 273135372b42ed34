/** Whole runs of the heap: every sequence of growing, allocating, freeing, unmapping and merging. */
module Runs {
  import opened Words
  import opened FreeListIndex
  import opened Chunks
  import opened Freeing
  import opened Allocation
  import opened Search
  import opened Allocator
  import opened AllocFree
  import opened Unmapping
  import opened Merging
  import opened Totals

  datatype Event =
    | Grow(start: nat, blocks: nat)
    | Allocate(env: Env, req: Request, policy: Policy)
    | Deallocate(block: nat)
    | UnmapStale(stale: set<nat>)
    | MergePass

  /** What the rest of the collector guarantees when it calls: memory added is new, usable and below
      half the address space, and only used chunks are freed. Requests are arbitrary. */
  ghost predicate Legal(s: Heap, e: Event) {
    match e
    case Grow(h, n) => Vacant(s, h, n) && n < HALF_SPACE
    case Allocate(_, _, _) => true
    case Deallocate(h) => h in s.chunks && s.chunks[h].use.Used?
    case UnmapStale(_) => true
    case MergePass => true
  }

  ghost function Step(s: Heap, e: Event): Heap
    requires Inv(s) && Legal(s, e)
  {
    match e
    case Grow(h, n) => AddToHeap(s, h, n)
    case Allocate(env, req, p) => Allochblk(s, env, req, p).0
    case Deallocate(h) => UsedReleasable(s, h); FreeHblk(s, h)
    case UnmapStale(stale) => UnmapOld(s, 0, stale)
    case MergePass => MergeUnmapped(s, 0)
  }

  lemma UsedReleasable(s: Heap, h: nat)
    requires Inv(s) && h in s.chunks && s.chunks[h].use.Used?
    ensures Releasable(s, h) && !s.chunks[h].core.unmapped
  {
    assert Tagged(s.chunks[h]);
  }

  /** The state invariant between operations. */
  ghost predicate Sound(s: Heap) {
    Inv(s) && MappingAgrees(s) && Balanced(s) && Settled(s.chunks)
  }

  /** The event is an allocation that runs past a chunk. */
  ghost predicate Overrunning(s: Heap, e: Event)
    requires Inv(s)
  {
    e.Allocate? && AllocOverruns(s, e.env, e.req, e.policy)
  }

  function Grown(e: Event): nat {
    if e.Grow? then e.blocks else 0
  }

  // ---- Chunks stay free or used ----

  lemma FreeSettles(s: Heap, h: nat)
    requires Inv(s) && Releasable(s, h) && !s.chunks[h].core.unmapped && SettledBut(s.chunks, h)
    ensures Settled(FreeHblk(s, h).chunks)
  {
    FreeResult(s, h);
    hide InvExcept, FreeHblk, SameCover, Weigh;
    var t, lo, hi := FreeHblk(s, h), FreedFrom(s, h), FreedTo(s, h);
    forall f | f in t.chunks
      ensures t.chunks[f].use.Free? || t.chunks[f].use.Used?
    {
      assert f != lo ==> f in s.chunks && t.chunks[f] == s.chunks[f] && !(lo <= f < hi);
    }
  }

  lemma NthSettles(s: Heap, env: Env, req: Request, i: nat, split: MaySplit)
    requires Ready(s, req, i) && Settled(s.chunks) && req.Need() > 0
    ensures Settled(Nth(s, env, req, i, split).0.chunks)
  {
    hide Filed, Find, ObjSzToBlocks, FlFromBlocks, Commit, NoClearStart, ShedOnly, Carved;
    FindKeeps(s, env, req, i, split, 0);
    var o := Find(s, env, req, i, split, 0);
    ShedSettles(s, o.s, env, req, i);
    if o.m != 0 {
      CommitCarves(o.s, req, o.h, o.m, i);
      CarvedSettles(o.s.chunks, Commit(o.s, req, o.h, o.m, i).chunks, o.h, o.m, req.Need());
    }
  }

  lemma ShedSettles(s: Heap, t: Heap, env: Env, req: Request, i: nat)
    requires ShedOnly(s, t, env, req, i) && Settled(s.chunks)
    ensures Settled(t.chunks)
  {
    hide DropsWholly;
  }

  lemma CarvedSettles(c: map<nat, Chunk>, d: map<nat, Chunk>, h: nat, m: nat, need: nat)
    requires h in c && Carved(c, d, h, m, need) && Settled(c) && Tiled(c) && h <= m && m + need <= h + c[h].n
    ensures Settled(d)
  {
    forall f | f in d
      ensures d[f].use.Free? || d[f].use.Used?
    {
    }
  }

  lemma {:induction false} AllocFromSettles(s: Heap, env: Env, req: Request, i: nat, l: Limit)
    requires Inv(s) && req.Valid() && l.list <= N_HBLK_FLS && Settled(s.chunks) && req.Need() > 0
    ensures Settled(AllocFrom(s, env, req, i, l).0.chunks)
    decreases l.list + 1 - i
  {
    hide Filed, Nth, Grants, Settled, ObjSzToBlocks, FlFromBlocks;
    if i <= l.list {
      NthKeeps(s, env, req, i, l.split);
      NthSettles(s, env, req, i, l.split);
      var (t, r) := Nth(s, env, req, i, l.split);
      if r == 0 {
        GrantsInv(s, t, 0);
        AllocFromSettles(t, env, req, i + 1, l);
      }
    }
  }

  lemma FillingSettles(s: Heap, env: Env, req: Request, p: Policy)
    requires Inv(s) && req.Need() > 0 && Settled(s.chunks)
    ensures Settled(Allochblk(s, env, req, p).0.chunks)
  {
    hide Filed, Nth, Grants, Settled, ObjSzToBlocks, AllocFrom;
    TooLarge(req);
    if req.Need() < HALF_SPACE {
      var i := FlFromBlocks(req.Need());
      NthKeeps(s, env, req, i, NoSplit);
      NthSettles(s, env, req, i, NoSplit);
      var (t, r) := Nth(s, env, req, i, NoSplit);
      if r == 0 {
        GrantsInv(s, t, 0);
        AllocFromSettles(t, env, req, SecondStart(req), ChooseLimit(ListBytes(t), p));
      }
    }
  }

  lemma AllocSettles(s: Heap, env: Env, req: Request, p: Policy)
    requires Inv(s) && Settled(s.chunks) && !AllocOverruns(s, env, req, p)
    ensures Settled(Allochblk(s, env, req, p).0.chunks)
  {
    hide InvExcept, Allochblk, AllocOverruns, ObjSzToBlocks, Grants, HasRoom, MappingAgrees;
    var (t, r) := Allochblk(s, env, req, p);
    if req.Need() > 0 {
      FillingSettles(s, env, req, p);
    } else if r != 0 {
      var h := EmptyGrant(s, env, req, p);
      LeftFreeSettles(s.chunks, t.chunks, h, r);
    } else {
      AllocKeeps(s, env, req, p);
      AllocDropsNothing(s, env, req, p);
    }
  }

  lemma LeftFreeSettles(c: map<nat, Chunk>, d: map<nat, Chunk>, h: nat, m: nat)
    requires h in c && LeftFree(c, d, h, m) && Settled(c) && h <= m
    ensures Settled(d)
  {
    forall f | f in d && f != 0
      ensures d[f].use.Free? || d[f].use.Used?
    {
      assert (f == h && h < m) || f == m || (f in c && d[f] == c[f]);
    }
  }

  // ---- One step ----

  lemma GrowSound(s: Heap, h: nat, n: nat)
    requires Sound(s) && Vacant(s, h, n) && n < HALF_SPACE
    ensures Sound(AddToHeap(s, h, n)) && TotalBlocks(AddToHeap(s, h, n)) == TotalBlocks(s) + n
  {
    var t := NewSection(s, h, n);
    NewSectionKeeps(s, h, n);
    SectionSettles(s, h, n);
    hide InvExcept, FreeHblk, Vacant, Weigh, MappingAgrees, Settled, SettledBut, SameCover;
    FreeResult(t, h);
    FreeBalances(t, h);
    FreeKeepsMapping(t, h);
    FreeSettles(t, h);
  }

  lemma SectionSettles(s: Heap, h: nat, n: nat)
    requires Settled(s.chunks) && Inv(s)
    ensures SettledBut(NewSection(s, h, n).chunks, h) && Releasable(NewSection(s, h, n), h) == (n < HALF_SPACE)
  {
    assert 0 !in s.chunks;
    hide InvExcept;
  }

  lemma DeallocateSound(s: Heap, h: nat)
    requires Sound(s) && h in s.chunks && s.chunks[h].use.Used?
    ensures Releasable(s, h)
    ensures Sound(FreeHblk(s, h)) && TotalBlocks(FreeHblk(s, h)) == TotalBlocks(s)
  {
    UsedReleasable(s, h);
    SettledElsewhere(s, h);
    hide InvExcept, FreeHblk, Weigh, MappingAgrees, Settled, SettledBut, SameCover;
    FreeResult(s, h);
    FreeBalances(s, h);
    FreeKeepsMapping(s, h);
    FreeSettles(s, h);
  }

  lemma SettledElsewhere(s: Heap, h: nat)
    requires Inv(s) && Settled(s.chunks)
    ensures SettledBut(s.chunks, h)
  {
    assert 0 !in s.chunks;
    hide InvExcept;
  }

  lemma AllocateSound(s: Heap, env: Env, req: Request, p: Policy)
    requires Sound(s) && !AllocOverruns(s, env, req, p)
    ensures Sound(Allochblk(s, env, req, p).0) && TotalBlocks(Allochblk(s, env, req, p).0) == TotalBlocks(s)
  {
    hide InvExcept, Allochblk, AllocOverruns, Weigh, MappingAgrees, Settled, ObjSzToBlocks;
    AllocKeeps(s, env, req, p);
    AllocBalances(s, env, req, p);
    AllocSettles(s, env, req, p);
  }

  lemma UnmapSound(s: Heap, stale: set<nat>)
    requires Sound(s)
    ensures Sound(UnmapOld(s, 0, stale)) && TotalBlocks(UnmapOld(s, 0, stale)) == TotalBlocks(s)
  {
    hide InvExcept, UnmapOld, Weigh, MappingAgrees, SameCover;
    UnmapOldKeeps(s, 0, stale);
  }

  lemma MergeSound(s: Heap)
    requires Sound(s)
    ensures Sound(MergeUnmapped(s, 0)) && TotalBlocks(MergeUnmapped(s, 0)) == TotalBlocks(s)
  {
    hide InvExcept, MergeUnmapped, Weigh, MappingAgrees, SameCover;
    MergeUnmappedKeeps(s, 0);
  }

  /** An operation keeps the whole invariant if and only if it is not an allocation that runs past a
      chunk; then it changes the size of the heap only by growing. */
  lemma StepSound(s: Heap, e: Event)
    requires Sound(s) && Legal(s, e)
    ensures Sound(Step(s, e)) <==> !Overrunning(s, e)
    ensures !Overrunning(s, e) ==> TotalBlocks(Step(s, e)) == TotalBlocks(s) + Grown(e)
  {
    hide InvExcept, MappingAgrees, Balanced, Settled, Vacant, AllocOverruns, Weigh;
    match e {
      case Grow(h, n) => GrowSound(s, h, n);
      case Allocate(env, req, p) =>
        if AllocOverruns(s, env, req, p) {
          AllocKeeps(s, env, req, p);
        } else {
          AllocateSound(s, env, req, p);
        }
      case Deallocate(h) => DeallocateSound(s, h);
      case UnmapStale(stale) => UnmapSound(s, stale);
      case MergePass => MergeSound(s);
    }
  }

  /** The caller can tell from the request alone that an allocation does not run past a chunk: it is
      for at least one block, or of a kind that ignores the black list. */
  predicate Plain(e: Event) {
    e.Allocate? ==> e.req.Need() > 0 || !e.req.AvoidsBlackList()
  }

  lemma PlainNeverOverruns(s: Heap, e: Event)
    requires Inv(s) && Plain(e)
    ensures !Overrunning(s, e)
  {
    hide InvExcept, AllocOverruns, ObjSzToBlocks;
    if Overrunning(s, e) {
      var h := AllocOverrunMeans(s, e.env, e.req, e.policy);
    }
  }

  // ---- Whole runs ----

  /** A run of legal events from s to t, none of which runs past a chunk. */
  ghost predicate Leads(s: Heap, es: seq<Event>, t: Heap)
    decreases |es|
  {
    if es == [] then s == t
    else Inv(s) && Legal(s, es[0]) && !Overrunning(s, es[0]) && Leads(Step(s, es[0]), es[1..], t)
  }

  function TotalGrown(es: seq<Event>): nat {
    if es == [] then 0 else Grown(es[0]) + TotalGrown(es[1..])
  }

  lemma EmptySound()
    ensures Sound(EmptyHeap()) && TotalBlocks(EmptyHeap()) == 0
    ensures Coalesced(EmptyHeap().chunks) && AllMapped(EmptyHeap())
  {
  }

  lemma {:induction false} RunSound(s: Heap, es: seq<Event>, t: Heap)
    requires Sound(s) && Leads(s, es, t)
    ensures Sound(t) && TotalBlocks(t) == TotalBlocks(s) + TotalGrown(es)
    decreases |es|
  {
    hide InvExcept, MappingAgrees, Balanced, Settled, Weigh, Legal, Step, Overrunning;
    if es != [] {
      StepSound(s, es[0]);
      RunSound(Step(s, es[0]), es[1..], t);
    }
  }

  /** Every reachable heap: the invariant holds, flags and mapping agree, the global counter is the
      bytes in free chunks and the total over the lists, and free and used blocks are what was added. */
  lemma ReachableSound(es: seq<Event>, t: Heap)
    requires Leads(EmptyHeap(), es, t)
    ensures Inv(t) && MappingAgrees(t) && Settled(t.chunks)
    ensures t.large == FreeBlocks(t) * HBLKSIZE == SuffixBytes(ListBytes(t), 0)
    ensures FreeBlocks(t) + Weigh(t.chunks, OnlyUsed) == TotalGrown(es)
  {
    EmptySound();
    RunSound(EmptyHeap(), es, t);
    ListTotals(t);
    FreePlusUsed(t.chunks);
  }

  // ---- Runs without unmapping ----

  /** No event of a configuration with unmapping, and only plain allocations. */
  predicate NeverUnmaps(es: seq<Event>) {
    forall e :: e in es ==> !e.UnmapStale? && !e.MergePass? && Plain(e)
  }

  lemma StepCoalesces(s: Heap, e: Event)
    requires Sound(s) && Legal(s, e) && !e.UnmapStale? && !e.MergePass? && Plain(e)
    requires Coalesced(s.chunks) && AllMapped(s) && TotalBlocks(s) + Grown(e) < HALF_SPACE
    ensures Coalesced(Step(s, e).chunks) && AllMapped(Step(s, e))
  {
    hide InvExcept, MappingAgrees, Balanced, Settled, Weigh, Allochblk, FreeHblk, AllocOverruns, Coalesced, AllMapped;
    hide ObjSzToBlocks;
    match e {
      case Grow(h, n) =>
        NewSectionKeeps(s, h, n);
        SectionSettles(s, h, n);
        SectionCoalesced(s, h, n);
        FreeCoalesces(NewSection(s, h, n), h);
      case Allocate(env, req, p) =>
        PlainNeverOverruns(s, e);
        AllocCoalesces(s, env, req, p);
        PlainStartsChunk(s, env, req, p);
      case Deallocate(h) =>
        UsedReleasable(s, h);
        FreeCoalesces(s, h);
    }
  }

  /** A request of no blocks that ignores the black list is given the start of a free chunk. */
  lemma PlainStartsChunk(s: Heap, env: Env, req: Request, p: Policy)
    requires Inv(s) && !AllocOverruns(s, env, req, p) && (req.Need() > 0 || !req.AvoidsBlackList())
    ensures var r := Allochblk(s, env, req, p).1; req.Need() > 0 || r == 0 || IsFree(s, r)
  {
    hide InvExcept, Allochblk, AllocOverruns, ObjSzToBlocks, Request.AvoidsBlackList, HasRoom, LeftFree;
    if req.Need() == 0 && Allochblk(s, env, req, p).1 != 0 {
      var h := EmptyGrant(s, env, req, p);
    }
  }

  lemma SectionCoalesced(s: Heap, h: nat, n: nat)
    requires Coalesced(s.chunks) && AllMapped(s)
    ensures Coalesced(NewSection(s, h, n).chunks) && AllMapped(NewSection(s, h, n))
  {
  }

  lemma {:induction false} RunCoalesces(s: Heap, es: seq<Event>, t: Heap)
    requires Sound(s) && Leads(s, es, t) && NeverUnmaps(es)
    requires Coalesced(s.chunks) && AllMapped(s) && TotalBlocks(s) + TotalGrown(es) < HALF_SPACE
    ensures Coalesced(t.chunks) && AllMapped(t)
    decreases |es|
  {
    hide InvExcept, MappingAgrees, Balanced, Settled, Weigh, Legal, Step, Overrunning, Coalesced, AllMapped;
    hide Plain;
    if es != [] {
      assert es[0] in es;
      assert forall e :: e in es[1..] ==> e in es;
      StepSound(s, es[0]);
      StepCoalesces(s, es[0]);
      RunCoalesces(Step(s, es[0]), es[1..], t);
    }
  }

  /** Without unmapping and below half the address space, two runs that leave the same blocks and
      the same used chunks leave the same free chunks, whatever the order of their events. */
  lemma RunsAgree(es: seq<Event>, fs: seq<Event>, t: Heap, u: Heap, h: nat)
    requires Leads(EmptyHeap(), es, t) && NeverUnmaps(es) && TotalGrown(es) < HALF_SPACE
    requires Leads(EmptyHeap(), fs, u) && NeverUnmaps(fs) && TotalGrown(fs) < HALF_SPACE
    requires SameCover(t.chunks, u.chunks)
    requires forall g :: (g in t.chunks && !t.chunks[g].use.Free?) <==> (g in u.chunks && !u.chunks[g].use.Free?)
    requires forall g :: g in t.chunks && !t.chunks[g].use.Free? ==> t.chunks[g].n == u.chunks[g].n
    requires IsFree(t, h)
    ensures IsFree(u, h) && u.chunks[h].n == t.chunks[h].n
  {
    EmptySound();
    RunSound(EmptyHeap(), es, t);
    RunSound(EmptyHeap(), fs, u);
    RunCoalesces(EmptyHeap(), es, t);
    RunCoalesces(EmptyHeap(), fs, u);
    hide Leads, Weigh;
    FreeChunksDetermined(t.chunks, u.chunks, h);
  }
}
