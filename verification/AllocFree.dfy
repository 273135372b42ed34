/** Allocation followed by freeing, and coalescing across allocations. */
module AllocFree {
  import opened Words
  import opened FreeListIndex
  import opened Chunks
  import opened Allocation
  import opened Search
  import opened Allocator
  import opened Freeing

  /** s and t have the same free chunks. */
  ghost predicate SameFree(s: Heap, t: Heap) {
    && (forall f :: IsFree(s, f) <==> IsFree(t, f))
    && (forall f :: IsFree(s, f) ==> t.chunks[f].n == s.chunks[f].n)
  }

  // ---- Carving keeps a coalesced heap coalesced ----

  lemma CarvedCoalesces(c: map<nat, Chunk>, d: map<nat, Chunk>, h: nat, m: nat, need: nat)
    requires Tiled(c) && Tiled(d) && h in c && c[h].use.Free? && Carved(c, d, h, m, need)
    requires h <= m && m + need <= h + c[h].n && need > 0
    requires Coalesced(c)
    ensures Coalesced(d)
  {
  }

  lemma LostCoalesces(s: Heap, t: Heap, env: Env, req: Request)
    requires OnlyHopelessLost(s, t, env, req) && Coalesced(s.chunks)
    ensures Coalesced(t.chunks)
  {
    hide HasRoom;
    assert forall f :: f in t.chunks && t.chunks[f].use.Free? ==> IsFree(t, f);
  }

  lemma NthCoalesces(s: Heap, env: Env, req: Request, i: nat, split: MaySplit)
    requires Ready(s, req, i) && Coalesced(s.chunks) && req.Need() > 0
    ensures Coalesced(Nth(s, env, req, i, split).0.chunks)
  {
    FindKeeps(s, env, req, i, split, 0);
    var o := Find(s, env, req, i, split, 0);
    ShedLosesHopeless(s, o.s, env, req, i);
    LostCoalesces(s, o.s, env, req);
    if o.m != 0 {
      CommitKeeps(o.s, req, o.h, o.m, i);
      CommitCarves(o.s, req, o.h, o.m, i);
      hide Filed, Find, ObjSzToBlocks, FlFromBlocks, Commit, ShedOnly, OnlyHopelessLost, NoClearStart;
      CarvedCoalesces(o.s.chunks, Commit(o.s, req, o.h, o.m, i).chunks, o.h, o.m, req.Need());
    }
  }

  lemma NthAllMapped(s: Heap, env: Env, req: Request, i: nat, split: MaySplit)
    requires Ready(s, req, i) && AllMapped(s) && req.Need() > 0
    ensures AllMapped(Nth(s, env, req, i, split).0)
  {
    FindKeeps(s, env, req, i, split, 0);
    var o := Find(s, env, req, i, split, 0);
    ShedAllMapped(s, o.s, env, req, i);
    hide Find, Filed, ObjSzToBlocks, FlFromBlocks, Commit, NoClearStart, ShedOnly, AllMapped, Carved;
    if o.m != 0 {
      CommitCarves(o.s, req, o.h, o.m, i);
      CarvedAllMapped(o.s, Commit(o.s, req, o.h, o.m, i), o.h, o.m, req.Need());
    }
  }

  lemma ShedAllMapped(s: Heap, t: Heap, env: Env, req: Request, i: nat)
    requires ShedOnly(s, t, env, req, i) && AllMapped(s)
    ensures AllMapped(t)
  {
    hide DropsWholly;
  }

  lemma CarvedAllMapped(s: Heap, t: Heap, h: nat, m: nat, need: nat)
    requires h in s.chunks && Carved(s.chunks, t.chunks, h, m, need) && AllMapped(s)
    requires Tiled(s.chunks) && h <= m && m + need <= h + s.chunks[h].n
    requires m in t.chunks && !t.chunks[m].core.unmapped
    ensures AllMapped(t)
  {
    forall f | f in t.chunks
      ensures !t.chunks[f].core.unmapped
    {
    }
  }

  lemma {:induction false} AllocFromCoalesces(s: Heap, env: Env, req: Request, i: nat, l: Limit)
    requires Inv(s) && req.Valid() && l.list <= N_HBLK_FLS && req.Need() > 0
    ensures Coalesced(s.chunks) ==> Coalesced(AllocFrom(s, env, req, i, l).0.chunks)
    ensures AllMapped(s) ==> AllMapped(AllocFrom(s, env, req, i, l).0)
    decreases l.list + 1 - i
  {
    hide Filed, Nth, Grants, Coalesced, AllMapped, ObjSzToBlocks, FlFromBlocks;
    if i <= l.list {
      NthKeeps(s, env, req, i, l.split);
      if Coalesced(s.chunks) {
        NthCoalesces(s, env, req, i, l.split);
      }
      if AllMapped(s) {
        NthAllMapped(s, env, req, i, l.split);
      }
      var (t, r) := Nth(s, env, req, i, l.split);
      if r == 0 {
        GrantsInv(s, t, 0);
        AllocFromCoalesces(t, env, req, i + 1, l);
      }
    }
  }

  lemma FillingCoalesces(s: Heap, env: Env, req: Request, p: Policy)
    requires Inv(s) && req.Need() > 0
    ensures Coalesced(s.chunks) ==> Coalesced(Allochblk(s, env, req, p).0.chunks)
    ensures AllMapped(s) ==> AllMapped(Allochblk(s, env, req, p).0)
  {
    TooLarge(req);
    hide Filed, Nth, Grants, Coalesced, AllMapped, ObjSzToBlocks, AllocFrom;
    if req.Need() < HALF_SPACE {
      var i := FlFromBlocks(req.Need());
      NthKeeps(s, env, req, i, NoSplit);
      if Coalesced(s.chunks) {
        NthCoalesces(s, env, req, i, NoSplit);
      }
      if AllMapped(s) {
        NthAllMapped(s, env, req, i, NoSplit);
      }
      var (t, r) := Nth(s, env, req, i, NoSplit);
      if r == 0 {
        GrantsInv(s, t, 0);
        AllocFromCoalesces(t, env, req, SecondStart(req), ChooseLimit(ListBytes(t), p));
      }
    }
  }

  /** Cutting a free chunk makes two adjacent ones; filing it again makes none. */
  lemma LeftFreeCoalesces(c: map<nat, Chunk>, d: map<nat, Chunk>, h: nat, m: nat)
    requires Tiled(c) && h in c && c[h].use.Free? && h <= m < h + c[h].n && LeftFree(c, d, h, m) && Coalesced(c)
    ensures Coalesced(d) <==> m == h
    ensures m == h <==> m in c
  {
    if h < m {
      assert h in d && m in d && d[h].use.Free? && h + d[h].n == m && d[m].use.Free?;
    }
  }

  lemma EmptyCoalesces(s: Heap, env: Env, req: Request, p: Policy)
    requires Inv(s) && req.Need() == 0 && !AllocOverruns(s, env, req, p) && Allochblk(s, env, req, p).1 != 0
    ensures var (t, r) := Allochblk(s, env, req, p);
      && (Coalesced(s.chunks) ==> (Coalesced(t.chunks) <==> IsFree(s, r)))
      && (AllMapped(s) ==> AllMapped(t))
  {
    hide Filed, Allochblk, AllocOverruns, ObjSzToBlocks, Grants, MappingAgrees, HasRoom, Coalesced, LeftFree;
    hide FlFromBlocks;
    var (t, r) := Allochblk(s, env, req, p);
    var h := EmptyGrant(s, env, req, p);
    if Coalesced(s.chunks) {
      LeftFreeCoalesces(s.chunks, t.chunks, h, r);
    }
    LeftFreeMapped(s, t, h, r);
  }

  lemma LeftFreeMapped(s: Heap, t: Heap, h: nat, m: nat)
    requires h in s.chunks && h <= m && LeftFree(s.chunks, t.chunks, h, m)
    ensures AllMapped(s) ==> AllMapped(t)
  {
  }

  /** What a request of no blocks is given: a start inside a free chunk, which stays free. */
  lemma EmptyGrant(s: Heap, env: Env, req: Request, p: Policy) returns (h: nat)
    requires Inv(s) && req.Need() == 0 && !AllocOverruns(s, env, req, p) && Allochblk(s, env, req, p).1 != 0
    ensures var (t, r) := Allochblk(s, env, req, p);
      && Inv(t) && t.large == s.large && IsFree(s, h) && h <= r < h + s.chunks[h].n
      && RightPlace(s, env, req, h, r) && LeftFree(s.chunks, t.chunks, h, r)
  {
    hide Filed, Tagged, Allochblk, AllocOverruns, ObjSzToBlocks, MappingAgrees, HasRoom, FlFromBlocks, SameCover, Weigh;
    var (t, r) := Allochblk(s, env, req, p);
    AllocKeeps(s, env, req, p);
    AllocDropsNothing(s, env, req, p);
    h :| RightPlace(s, env, req, h, r) && (t.dropped == s.dropped ==> LeftFree(s.chunks, t.chunks, h, r));
    ChunksTiled(t);
  }

  /** An allocation that does not overrun unmaps nothing. It makes two free chunks adjacent exactly if
      it is of no blocks and starts inside a free chunk. */
  lemma AllocCoalesces(s: Heap, env: Env, req: Request, p: Policy)
    requires Inv(s) && !AllocOverruns(s, env, req, p)
    ensures var (t, r) := Allochblk(s, env, req, p);
      && (Coalesced(s.chunks) ==> (Coalesced(t.chunks) <==> req.Need() > 0 || r == 0 || IsFree(s, r)))
      && (AllMapped(s) ==> AllMapped(t))
  {
    hide InvExcept, Allochblk, AllocOverruns, ObjSzToBlocks, Grants, MappingAgrees, HasRoom, Coalesced, AllMapped;
    var (t, r) := Allochblk(s, env, req, p);
    if req.Need() > 0 {
      FillingCoalesces(s, env, req, p);
    } else if r != 0 {
      EmptyCoalesces(s, env, req, p);
    } else {
      AllocKeeps(s, env, req, p);
      AllocDropsNothing(s, env, req, p);
      SameChunks(s, t);
    }
  }

  lemma SameChunks(s: Heap, t: Heap)
    requires t.chunks == s.chunks
    ensures Coalesced(s.chunks) <==> Coalesced(t.chunks)
    ensures AllMapped(s) <==> AllMapped(t)
  {
  }

  // ---- Allocating and freeing again ----

  /** Blocks [m, m + need) at an edge of free chunk h, once freed, merge with no chunk beyond that edge. */
  ghost predicate StaysApart(s: Heap, h: nat, m: nat, need: nat)
    requires IsFree(s, h)
  {
    var end, p := h + s.chunks[h].n, FreeBefore(s.chunks, h);
    && !(m + need == end && Joinable(s, end, need))
    && !(m == h && p != 0 && Joinable(s, p, s.chunks[h].n))
  }

  /** t is s with blocks [m, m + need) carved out of free chunk h. */
  ghost predicate CarvedFrom(s: Heap, t: Heap, h: nat, m: nat, need: nat) {
    && Inv(s) && Inv(t) && IsFree(s, h) && h <= m && 0 < need && m + need <= h + s.chunks[h].n
    && Carved(s.chunks, t.chunks, h, m, need) && Releasable(t, m)
  }

  /** The carved blocks merge back into exactly the chunk they came from if and only if they do not
      merge with a neighbour of that chunk. */
  lemma CarvedMergesBack(s: Heap, t: Heap, h: nat, m: nat, need: nat)
    requires CarvedFrom(s, t, h, m, need)
    ensures FreedFrom(t, m) == h && FreedTo(t, m) == h + s.chunks[h].n <==> StaysApart(s, h, m, need)
  {
    hide CarvedFrom, FreedTo, FreedFrom, Carved, InvExcept;
    CarvedIsFree(s, t, h, m, need);
    UpperPartMergesBack(s, t, h, m, need);
    if FreedTo(t, m) == h + s.chunks[h].n {
      LowerPartMergesBack(s, t, h, m, need);
    }
  }

  lemma CarvedIsFree(s: Heap, t: Heap, h: nat, m: nat, need: nat)
    requires CarvedFrom(s, t, h, m, need)
    ensures IsFree(s, h) && Inv(t) && Releasable(t, m)
  {
  }

  lemma UpperPartMergesBack(s: Heap, t: Heap, h: nat, m: nat, need: nat)
    requires CarvedFrom(s, t, h, m, need)
    ensures IsFree(s, h)
    ensures var end := h + s.chunks[h].n;
      FreedTo(t, m) == end <==> !(m + need == end && Joinable(s, end, need))
  {
    hide Filed, FreedTo;
    FreedToNext(t, m);
    assert Tagged(s.chunks[h]);
  }

  lemma LowerPartMergesBack(s: Heap, t: Heap, h: nat, m: nat, need: nat)
    requires CarvedFrom(s, t, h, m, need) && IsFree(s, h) && FreedTo(t, m) == h + s.chunks[h].n
    ensures var p := FreeBefore(s.chunks, h);
      FreedFrom(t, m) == h <==> !(m == h && p != 0 && Joinable(s, p, s.chunks[h].n))
  {
    hide Filed, FreedFrom, FreedTo, FreeBefore;
    FreedFromPrevious(t, m);
    assert Tagged(s.chunks[h]);
    if h < m {
      FreeBeforeUnique(t.chunks, h, h, m);
    } else {
      SameBefore(s, t, h, need);
    }
  }

  lemma SameBefore(s: Heap, t: Heap, h: nat, need: nat)
    requires CarvedFrom(s, t, h, h, need)
    ensures var p := FreeBefore(s.chunks, h);
      p == FreeBefore(t.chunks, h) && (p != 0 ==> p in s.chunks && p in t.chunks && t.chunks[p] == s.chunks[p])
  {
    hide Filed, FreeBefore;
    var p, q := FreeBefore(s.chunks, h), FreeBefore(t.chunks, h);
    if p != 0 {
      FreeBeforeUnique(t.chunks, p, p, h);
    } else if q != 0 {
      FreeBeforeUnique(s.chunks, q, q, h);
    }
  }

  /** Block r was granted out of free chunk h by a call that neither overran nor dropped anything. */
  ghost predicate GrantedFrom(s: Heap, env: Env, req: Request, p: Policy, h: nat)
    requires Inv(s)
  {
    var (t, r) := Allochblk(s, env, req, p);
    r != 0 && t.dropped == s.dropped && !AllocOverruns(s, env, req, p) && IsFree(s, h) && h <= r < h + s.chunks[h].n
  }

  /** The block just granted out of chunk h, in a call that dropped nothing, can be freed exactly if the
      request was for at least one block; freed, a request of no blocks is a duplicate. Freeing then
      always restores the counter, and restores the free chunks, however h was split, if and only if
      the block does not merge with a neighbour of h. */
  lemma AllocThenFree(s: Heap, env: Env, req: Request, p: Policy, h: nat)
    requires Inv(s) && GrantedFrom(s, env, req, p, h)
    ensures var (t, r) := Allochblk(s, env, req, p);
      && Inv(t) && (Releasable(t, r) <==> req.Need() > 0) && (IsFree(t, r) <==> req.Need() == 0)
      && (req.Need() > 0 ==>
            && FreeHblk(t, r).large == s.large
            && (SameFree(s, FreeHblk(t, r)) <==> StaysApart(s, h, r, req.Need())))
  {
    hide Allochblk, AllocOverruns, SameFree, FreeHblk, StaysApart, FreedFrom, FreedTo, CarvedFrom, Replaced, SameCover;
    hide Weigh, ObjSzToBlocks, Filed, LeftFree, RightPlace;
    var (t, r) := Allochblk(s, env, req, p);
    if req.Need() > 0 {
      GrantCarves(s, env, req, p, h);
      CarvedMergesBack(s, t, h, r, req.Need());
      FreeResult(t, r);
      FreeCounters(t, r);
      FreeRestores(s, t, FreeHblk(t, r), h, r, req.Need(), FreedFrom(t, r), FreedTo(t, r));
    } else {
      AllocKeeps(s, env, req, p);
    }
  }

  lemma GrantCarves(s: Heap, env: Env, req: Request, p: Policy, h: nat)
    requires Inv(s) && GrantedFrom(s, env, req, p, h) && req.Need() > 0
    ensures var (t, r) := Allochblk(s, env, req, p);
      && CarvedFrom(s, t, h, r, req.Need()) && Inv(t) && Releasable(t, r) && !t.chunks[r].core.unmapped
      && t.chunks[r].n == req.Need() && t.large == s.large - req.Need() * HBLKSIZE
  {
    hide Filed, Allochblk, AllocOverruns, Carved, HasRoom, Punts, SameCover, FlFromBlocks, ObjSzToBlocks, Weigh;
    var (t, r) := Allochblk(s, env, req, p);
    AllocKeeps(s, env, req, p);
    var g :| RightPlace(s, env, req, g, r) && Carved(s.chunks, t.chunks, g, r, req.Need());
    assert g == h;
  }

  lemma FreeRestores(s: Heap, t: Heap, u: Heap, h: nat, m: nat, need: nat, lo: nat, hi: nat)
    requires CarvedFrom(s, t, h, m, need) && IsFree(s, h)
    requires Replaced(t.chunks, u.chunks, lo, hi) && u.chunks[lo].use.Free? && lo <= m < hi
    ensures SameFree(s, u) <==> lo == h && hi == h + s.chunks[h].n
  {
    hide Filed;
    if SameFree(s, u) {
      assert IsFree(u, lo) && IsFree(s, lo);
    } else if lo == h && hi == h + s.chunks[h].n {
      RestoredInside(s, t, u, h, m, need);
    }
  }

  lemma RestoredInside(s: Heap, t: Heap, u: Heap, h: nat, m: nat, need: nat)
    requires Tiled(s.chunks) && IsFree(s, h) && Carved(s.chunks, t.chunks, h, m, need)
    requires h <= m && m + need <= h + s.chunks[h].n && need > 0
    requires Replaced(t.chunks, u.chunks, h, h + s.chunks[h].n) && u.chunks[h].use.Free?
    ensures SameFree(s, u)
  {
  }

  /** Where no two free chunks are adjacent, the free chunks are always restored. */
  lemma RestoredWhenCoalesced(s: Heap, env: Env, req: Request, p: Policy)
    requires Inv(s) && Coalesced(s.chunks) && req.Need() > 0
    requires var (t, r) := Allochblk(s, env, req, p); r != 0 && t.dropped == s.dropped
    ensures var (t, r) := Allochblk(s, env, req, p);
      Inv(t) && Releasable(t, r) && SameFree(s, FreeHblk(t, r)) && FreeHblk(t, r).large == s.large
  {
    hide Filed, Allochblk, AllocOverruns, Carved, HasRoom, Punts, SameCover, FlFromBlocks, ObjSzToBlocks, SameFree;
    hide FreeHblk, Weigh;
    var (t, r) := Allochblk(s, env, req, p);
    AllocKeeps(s, env, req, p);
    var h :| RightPlace(s, env, req, h, r);
    AllocThenFree(s, env, req, p, h);
  }
}
