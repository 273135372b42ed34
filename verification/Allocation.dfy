/** What the allocator's search does: where it places a request, what it carves out
    of the chosen chunk, and which wholly black-listed chunks it drops. */
module Allocation {
  import opened Words
  import opened FreeListIndex
  import opened Sequences
  import opened Chunks
  import opened BlackList

  const PTRFREE := 0
  const UNCOLLECTABLE := 2

  /** Largest request, in blocks, that may start on a black-listed block. */
  const MAX_BLACK_LIST_ALLOC := 2

  /** `IS_UNCOLLECTABLE`, counting the atomic uncollectable kind. */
  predicate IsUncollectable(kind: nat) {
    kind / 2 * 2 == UNCOLLECTABLE
  }

  datatype Request = Request(sz: nat, kind: nat, ignoreOffPage: bool)
  {
    function Need(): nat {
      ObjSzToBlocks(sz)
    }

    predicate AvoidsBlackList() {
      !IsUncollectable(kind) && (kind != PTRFREE || Need() > MAX_BLACK_LIST_ALLOC)
    }

    /** Blocks that the black list is asked about; for a request of no blocks it looks at one. */
    function Width(): nat {
      if Need() == 0 then 1 else Need()
    }

    /** Blocks that must not be black-listed. */
    function Exposed(): nat {
      if ignoreOffPage then 1 else Width()
    }

    predicate Valid() {
      Need() < HALF_SPACE
    }
  }

  /** The black list, its spacing in bytes, and the leak-finding switch. */
  datatype Env = Env(bl: View, blLimit: nat, findLeak: bool)

  datatype MaySplit = NoSplit | MayBeSplit | AvoidSplitRemapped

  // ---- Placement inside one chunk ----

  /** First start in [from, end) whose n blocks are not black-listed, or 0. */
  ghost function FirstClear(bl: View, from: nat, end: nat, n: nat): (m: nat)
    requires from > 0
    ensures m != 0 ==> from <= m < end && !bl.Listed(m, n)
    ensures forall b :: from <= b < (if m == 0 then end else m) ==> bl.Listed(b, n)
    decreases end - from
  {
    if from >= end then 0
    else if !bl.Listed(from, n) then from
    else FirstClear(bl, from + 1, end, n)
  }

  /** The next chunk on the list fits as well, is smaller, and is clear. */
  ghost predicate NextIsBetter(s: Heap, env: Env, req: Request, l: seq<nat>, k: nat) {
    && k + 1 < |l| && l[k] in s.chunks && l[k + 1] in s.chunks
    && req.Need() <= s.chunks[l[k + 1]].n < s.chunks[l[k]].n
    && !env.bl.Listed(l[k + 1], req.Width())
  }

  /** Every start in a chunk of n blocks at h is black-listed for the request. */
  ghost predicate NoClearStart(env: Env, req: Request, h: nat, n: nat) {
    forall b :: h <= b <= h + n - req.Need() ==> env.bl.Listed(b, req.Exposed())
  }

  /** Request and remainder both exceed the black-list spacing: give in. */
  predicate Punts(env: Env, req: Request, n: int) {
    req.Need() * HBLKSIZE > env.blLimit && (n - req.Need()) * HBLKSIZE > env.blLimit
  }

  datatype Verdict = Skip | TakeFrom(m: nat) | Exhausted

  /** Is the k-th chunk of list l large enough, and is going on not better than splitting it? */
  ghost predicate SizeFits(s: Heap, env: Env, req: Request, split: MaySplit, l: seq<nat>, k: nat)
    requires k < |l| && l[k] in s.chunks
  {
    var n := s.chunks[l[k]].n;
    n >= req.Need() && (n == req.Need() || (split != NoSplit && !NextIsBetter(s, env, req, l, k)))
  }

  /** Where in a large enough chunk of n blocks at h, flagged unmapped or not, the request goes. */
  ghost function Placement(env: Env, req: Request, split: MaySplit, h: nat, n: nat, u: bool): (v: Verdict)
    requires h > 0 && n >= req.Need()
    ensures v.TakeFrom? ==> h <= v.m && v.m + req.Need() <= h + n
  {
    if !req.AvoidsBlackList() then TakeFrom(h)
    else
      var m := FirstClear(env.bl, h, h + n - req.Need() + 1, req.Exposed());
      if m != 0 then
        if m != h && split == AvoidSplitRemapped && u then Skip else TakeFrom(m)
      else if Punts(env, req, n) then TakeFrom(h)
      else if req.Need() == 1 && !u && !env.findLeak then Exhausted
      else Skip
  }

  /** What the search does with the k-th chunk of list l. */
  ghost function Judge(s: Heap, env: Env, req: Request, split: MaySplit, l: seq<nat>, k: nat): (v: Verdict)
    requires k < |l| && l[k] in s.chunks && l[k] > 0
    ensures v.TakeFrom? ==> l[k] <= v.m && v.m + req.Need() <= l[k] + s.chunks[l[k]].n
  {
    if !SizeFits(s, env, req, split, l, k) then Skip
    else Placement(env, req, split, l[k], s.chunks[l[k]].n, s.chunks[l[k]].core.unmapped)
  }

  // ---- Carving out the chosen blocks ----

  /** Chunk h mapped as a whole, if it was not. */
  function Mapped(s: Heap, h: nat): (t: Heap)
    requires h in s.chunks
    ensures t.chunks.Keys == s.chunks.Keys && t.chunks[h].n == s.chunks[h].n && t.lists == s.lists
  {
    if s.chunks[h].core.unmapped then SetUnmapped(s, h, false) else s
  }

  /** Chunk h split so that a chunk starts at m. */
  function SplitAt(s: Heap, h: nat, m: nat, i: nat): (t: Heap)
    requires h in s.chunks && h <= m <= h + s.chunks[h].n && |s.lists| == N_HBLK_FLS + 1 && i <= N_HBLK_FLS
    ensures m in t.chunks && t.chunks[m].n == h + s.chunks[h].n - m && |t.lists| == N_HBLK_FLS + 1
  {
    if m == h then s else Split(s, h, m, i)
  }

  /** `GC_get_first_part`: chunk m leaves list i; what exceeds need blocks is filed again. */
  function FirstPart(s: Heap, m: nat, need: nat, i: nat): (t: Heap)
    requires m in s.chunks && need <= s.chunks[m].n && |s.lists| == N_HBLK_FLS + 1 && i <= N_HBLK_FLS
    ensures m in t.chunks && |t.lists| == N_HBLK_FLS + 1
  {
    var s1 := Take(s, m, i);
    if s.chunks[m].n == need then s1 else Push(Cut(s1, m, need), m + need)
  }

  /** The request placed at m inside chunk h, which is on list i. When a request of no blocks takes
      no first part, the header completed at the end is the one displaced by the rest's. */
  function Commit(s: Heap, req: Request, h: nat, m: nat, i: nat): (t: Heap)
    requires h in s.chunks && req.Valid() && h <= m && m + req.Need() <= h + s.chunks[h].n
    requires |s.lists| == N_HBLK_FLS + 1 && i <= N_HBLK_FLS
  {
    var s1 := FirstPart(SplitAt(Mapped(s, h), h, m, i), m, req.Need(), i);
    var displaced := req.Need() == 0 && m < h + s.chunks[h].n;
    var s2 := if displaced then s1 else SetUp(s1, m, req.sz, req.kind, req.ignoreOffPage);
    Heap(s2.chunks, s2.lists, s2.unmapped, s2.large - req.Need() * HBLKSIZE, s2.dropped, s2.drops)
  }

  /** d differs from c only inside chunk h: used blocks [m, m + need), free remainders around. */
  ghost predicate Carved(c: map<nat, Chunk>, d: map<nat, Chunk>, h: nat, m: nat, need: nat)
    requires h in c
  {
    var end := h + c[h].n;
    && m in d && d[m].n == need && d[m].use.Used?
    && (h < m ==> h in d && d[h].n == m - h && d[h].use.Free? && !d[h].core.unmapped)
    && (m + need < end ==> m + need in d && d[m + need].n == end - (m + need)
                           && d[m + need].use.Free? && !d[m + need].core.unmapped)
    && (forall f :: f in c && f != h ==> f in d && d[f] == c[f])
    && (forall f :: f in d && f != h && f != m && f != m + need ==> f in c)
    && (m + need == end ==> (end in d <==> end in c))
  }

  lemma MappedKeeps(s: Heap, h: nat)
    requires Inv(s) && IsFree(s, h)
    ensures var t := Mapped(s, h);
      && Inv(t) && IsFree(t, h) && !t.chunks[h].core.unmapped && SameCover(s.chunks, t.chunks)
      && (forall f :: f in s.chunks && f != h ==> t.chunks[f] == s.chunks[f])
      && FreeBlocks(t) == FreeBlocks(s) && TotalBlocks(t) == TotalBlocks(s)
  {
    hide Filed, Tiled, Covered, ObjSzToBlocks, Weigh;
    if s.chunks[h].core.unmapped {
      SetUnmappedKeeps(s, h, false, 0, 0);
      SameSizeWeighs(s.chunks, h, Mapped(s, h).chunks[h]);
    }
  }

  lemma MappedMapping(s: Heap, h: nat)
    requires Inv(s) && IsFree(s, h) && MappingAgrees(s)
    ensures MappingAgrees(Mapped(s, h))
  {
    if s.chunks[h].core.unmapped {
      UnmappedMapping(s, h, false);
    }
  }

  lemma OwnHome(s: Heap, h: nat)
    requires Inv(s) && h in s.chunks
    ensures InvExcept(s, h, FlFromBlocks(s.chunks[h].n))
  {
  }

  lemma SplitAtKeeps(s: Heap, h: nat, m: nat, i: nat)
    requires Inv(s) && IsFree(s, h) && h <= m < h + s.chunks[h].n && i == FlFromBlocks(s.chunks[h].n)
    ensures var t := SplitAt(s, h, m, i);
      && InvExcept(t, m, i) && IsFree(t, m) && SameCover(s.chunks, t.chunks)
      && FreeBlocks(t) == FreeBlocks(s) && TotalBlocks(t) == TotalBlocks(s)
  {
    OwnHome(s, h);
    NoChunkInside(s.chunks, h, m);
    hide Filed, Tiled, Covered, ObjSzToBlocks, Weigh, FlFromBlocks;
    if m != h {
      SplitMisfilesOne(s, h, m, i);
      SplitWeighs(s, h, m, i);
    }
  }

  lemma FirstPartKeeps(s: Heap, m: nat, need: nat, i: nat)
    requires InvExcept(s, m, i) && IsFree(s, m) && 0 < need <= s.chunks[m].n
    ensures var t := FirstPart(s, m, need, i);
      && Inv(t) && IsTaken(t, m) && t.chunks[m].n == need
  {
    assert i <= N_HBLK_FLS;
    hide Filed, Tiled, Covered, ObjSzToBlocks, Weigh, FlFromBlocks;
    TakeKeeps(s, m, i, m, i);
    if s.chunks[m].n != need {
      var s1 := Take(s, m, i);
      CutKeeps(s1, m, need, 0, 0);
      PushKeeps(Cut(s1, m, need), m + need, 0, 0);
    }
  }

  lemma FirstPartCovers(s: Heap, m: nat, need: nat, i: nat)
    requires InvExcept(s, m, i) && IsFree(s, m) && 0 < need <= s.chunks[m].n
    ensures SameCover(s.chunks, FirstPart(s, m, need, i).chunks)
  {
    assert i <= N_HBLK_FLS;
    hide Filed, Tiled, SameCover, ObjSzToBlocks, Weigh, FlFromBlocks, CutAt;
    TakeKeeps(s, m, i, m, i);
    if s.chunks[m].n != need {
      var s1 := Take(s, m, i);
      var s2 := Cut(s1, m, need);
      CutKeeps(s1, m, need, 0, 0);
      PushKeeps(s2, m + need, 0, 0);
      CoverTransitive(s.chunks, s1.chunks, s2.chunks);
      CoverTransitive(s.chunks, s2.chunks, Push(s2, m + need).chunks);
    }
  }

  lemma FirstPartWeighs(s: Heap, m: nat, need: nat, i: nat)
    requires InvExcept(s, m, i) && IsFree(s, m) && 0 < need <= s.chunks[m].n
    ensures FreeBlocks(FirstPart(s, m, need, i)) == FreeBlocks(s) - need
    ensures TotalBlocks(FirstPart(s, m, need, i)) == TotalBlocks(s)
  {
    assert i <= N_HBLK_FLS;
    NoChunkInside(s.chunks, m, if need < s.chunks[m].n then m + need else m);
    hide Filed, Tiled, Covered, ObjSzToBlocks, Weigh, FlFromBlocks;
    TakeWeighs(s, m, i);
    if s.chunks[m].n != need {
      var s1 := Take(s, m, i);
      CutWeighs(s1, m, need);
      PushWeighs(Cut(s1, m, need), m + need);
    }
  }

  lemma SetUpWeighs(s: Heap, h: nat, sz: nat, kind: nat, ignoreOffPage: bool)
    requires h in s.chunks && !s.chunks[h].use.Free?
    ensures FreeBlocks(SetUp(s, h, sz, kind, ignoreOffPage)) == FreeBlocks(s)
    ensures TotalBlocks(SetUp(s, h, sz, kind, ignoreOffPage)) == TotalBlocks(s)
  {
    SameSizeWeighs(s.chunks, h, SetUp(s, h, sz, kind, ignoreOffPage).chunks[h]);
  }

  /** A placement that fits inside a free chunk, on the list for its size. */
  ghost predicate Placeable(s: Heap, req: Request, h: nat, m: nat, i: nat) {
    && Inv(s) && IsFree(s, h) && req.Valid() && i == FlFromBlocks(s.chunks[h].n)
    && h <= m && m + req.Need() <= h + s.chunks[h].n
  }

  /** A request of no blocks takes no first part: chunk m is filed again under a fresh header. */
  lemma NoFirstPart(s: Heap, m: nat, i: nat)
    requires InvExcept(s, m, i) && IsFree(s, m)
    ensures i <= N_HBLK_FLS && |s.lists| == N_HBLK_FLS + 1
    ensures var t := FirstPart(s, m, 0, i);
      && Inv(t) && SameCover(s.chunks, t.chunks) && FreeBlocks(t) == FreeBlocks(s) && TotalBlocks(t) == TotalBlocks(s)
      && t.chunks == s.chunks[m := Chunk(s.chunks[m].n, Free, Core(s.chunks[m].n * HBLKSIZE, false, true))]
  {
    hide InvExcept, SameCover, Weigh, FlFromBlocks, Del;
    ChunkFacts(s, m, m, i);
    var s1 := Take(s, m, i);
    var s2 := Cut(s1, m, 0);
    TakeKeeps(s, m, i, m, i);
    TakeWeighs(s, m, i);
    RenewKeeps(s1, m);
    PushKeeps(s2, m, 0, 0);
    PushWeighs(s2, m);
    CoverTransitive(s.chunks, s1.chunks, s2.chunks);
    CoverTransitive(s.chunks, s2.chunks, Push(s2, m).chunks);
  }

  /** A placement keeps the invariant exactly if it starts inside the chunk. Only a request of no
      blocks can be placed just past it; it then writes the header of whatever follows. */
  lemma CommitKeeps(s: Heap, req: Request, h: nat, m: nat, i: nat)
    requires Placeable(s, req, h, m, i)
    ensures Inv(Commit(s, req, h, m, i)) <==> m < h + s.chunks[h].n
  {
    hide InvExcept, SameCover, ObjSzToBlocks, Weigh, FlFromBlocks, Mapped, SplitAt, FirstPart;
    ChunkFacts(s, h, 0, 0);
    if m == h + s.chunks[h].n {
      CommitOverwrites(s, req, h, m, i);
    } else {
      var s1 := Mapped(s, h);
      MappedKeeps(s, h);
      var s2 := SplitAt(s1, h, m, i);
      SplitAtKeeps(s1, h, m, i);
      if req.Need() == 0 {
        NoFirstPart(s2, m, i);
        assert InvExcept(FirstPart(s2, m, 0, i), 0, 0);
        SameInv(FirstPart(s2, m, 0, i), Commit(s, req, h, m, i));
      } else {
        var s3 := FirstPart(s2, m, req.Need(), i);
        FirstPartKeeps(s2, m, req.Need(), i);
        SetUpKeeps(s3, m, req.sz, req.kind, req.ignoreOffPage, 0, 0);
        SameInv(SetUp(s3, m, req.sz, req.kind, req.ignoreOffPage), Commit(s, req, h, m, i));
      }
    }
  }

  lemma SameInv(s: Heap, t: Heap)
    requires Inv(s) && t.chunks == s.chunks && t.lists == s.lists
    ensures Inv(t)
  {
  }

  /** A request of no blocks placed just past chunk h: the header there, whosever it was, becomes that
      of a used chunk of no blocks. */
  lemma CommitOverwrites(s: Heap, req: Request, h: nat, m: nat, i: nat)
    requires Placeable(s, req, h, m, i) && m == h + s.chunks[h].n
    ensures var t := Commit(s, req, h, m, i);
      && m in t.chunks && t.chunks[m] == Chunk(0, Used(req.kind, req.ignoreOffPage), Core(req.sz, false, false))
      && !Inv(t)
  {
    ChunkFacts(s, h, 0, 0);
    hide Filed, Tagged, ObjSzToBlocks, FlFromBlocks, Del, Replace, Blocks;
  }

  lemma CommitCovers(s: Heap, req: Request, h: nat, m: nat, i: nat)
    requires Placeable(s, req, h, m, i) && m < h + s.chunks[h].n
    ensures SameCover(s.chunks, Commit(s, req, h, m, i).chunks)
  {
    hide InvExcept, SameCover, ObjSzToBlocks, Weigh, FlFromBlocks;
    ChunkFacts(s, h, 0, 0);
    var s1 := Mapped(s, h);
    MappedKeeps(s, h);
    var s2 := SplitAt(s1, h, m, i);
    SplitAtKeeps(s1, h, m, i);
    CoverTransitive(s.chunks, s1.chunks, s2.chunks);
    var s3 := FirstPart(s2, m, req.Need(), i);
    if req.Need() == 0 {
      NoFirstPart(s2, m, i);
      CoverTransitive(s.chunks, s2.chunks, s3.chunks);
    } else {
      FirstPartKeeps(s2, m, req.Need(), i);
      FirstPartCovers(s2, m, req.Need(), i);
      SetUpKeeps(s3, m, req.sz, req.kind, req.ignoreOffPage, 0, 0);
      CoverTransitive(s.chunks, s2.chunks, s3.chunks);
      CoverTransitive(s.chunks, s3.chunks, Commit(s, req, h, m, i).chunks);
    }
  }

  /** A placement takes exactly its own blocks out of the free blocks and the counter. */
  lemma CommitWeighs(s: Heap, req: Request, h: nat, m: nat, i: nat)
    requires Placeable(s, req, h, m, i) && m < h + s.chunks[h].n
    ensures var t := Commit(s, req, h, m, i);
      && FreeBlocks(t) == FreeBlocks(s) - req.Need() && TotalBlocks(t) == TotalBlocks(s)
      && t.large == s.large - req.Need() * HBLKSIZE && t.dropped == s.dropped && t.drops == s.drops
  {
    hide InvExcept, SameCover, ObjSzToBlocks, Weigh, FlFromBlocks;
    ChunkFacts(s, h, 0, 0);
    var s1 := Mapped(s, h);
    MappedKeeps(s, h);
    var s2 := SplitAt(s1, h, m, i);
    SplitAtKeeps(s1, h, m, i);
    if req.Need() == 0 {
      NoFirstPart(s2, m, i);
    } else {
      var s3 := FirstPart(s2, m, req.Need(), i);
      FirstPartKeeps(s2, m, req.Need(), i);
      FirstPartWeighs(s2, m, req.Need(), i);
      SetUpWeighs(s3, m, req.sz, req.kind, req.ignoreOffPage);
    }
  }

  /** How `SplitAt` changes the chunks. */
  ghost predicate StartsAt(c: map<nat, Chunk>, d: map<nat, Chunk>, h: nat, m: nat) {
    && h in c && m in d && d[m].n == h + c[h].n - m
    && (forall f :: f in d <==> f in c || f == m)
    && (forall f :: f in c && f != h && f != m ==> d[f] == c[f])
    && (h < m ==> m !in c && h in d && d[h].n == m - h && d[h].use.Free? && !d[h].core.unmapped)
  }

  /** How `FirstPart` changes the chunks. */
  ghost predicate EndsAfter(c: map<nat, Chunk>, d: map<nat, Chunk>, m: nat, need: nat)
    requires m in c
  {
    var end := m + c[m].n;
    && m in d && d[m].n == need
    && (forall f :: f in d <==> f in c || (f == m + need && f < end))
    && (forall f :: f in c && f != m ==> d[f] == c[f])
    && (m + need < end ==> m + need !in c && d[m + need].n == end - (m + need)
                           && d[m + need].use.Free? && !d[m + need].core.unmapped)
  }

  lemma SplitAtShape(s: Heap, h: nat, m: nat, i: nat)
    requires Inv(s) && IsFree(s, h) && !s.chunks[h].core.unmapped && i <= N_HBLK_FLS
    requires h <= m < h + s.chunks[h].n
    ensures StartsAt(s.chunks, SplitAt(s, h, m, i).chunks, h, m)
  {
    NoChunkInside(s.chunks, h, m);
    hide InvExcept, FlFromBlocks;
  }

  lemma FirstPartShape(s: Heap, m: nat, need: nat, i: nat)
    requires InvExcept(s, m, i) && m in s.chunks && 0 < need <= s.chunks[m].n
    ensures EndsAfter(s.chunks, FirstPart(s, m, need, i).chunks, m, need)
  {
    hide InvExcept, FlFromBlocks, Del;
    ChunkFacts(s, m, m, i);
    if need < s.chunks[m].n {
      NothingInside(s, m, m + need, m, i);
    }
  }

  lemma CarvedInSteps(c: map<nat, Chunk>, c1: map<nat, Chunk>, c2: map<nat, Chunk>, c3: map<nat, Chunk>,
                      d: map<nat, Chunk>, h: nat, m: nat, need: nat)
    requires h in c && h in c1 && c1 == c[h := c1[h]] && c1[h].n == c[h].n
    requires StartsAt(c1, c2, h, m) && EndsAfter(c2, c3, m, need) && 0 < need && h <= m
    requires m in d && d == c3[m := d[m]] && d[m].n == need && d[m].use.Used?
    ensures Carved(c, d, h, m, need)
  {
  }

  /** The chosen chunk is cut into at most three; everything else stays. */
  lemma CommitCarves(s: Heap, req: Request, h: nat, m: nat, i: nat)
    requires Placeable(s, req, h, m, i) && req.Need() > 0
    ensures var t := Commit(s, req, h, m, i);
      && Carved(s.chunks, t.chunks, h, m, req.Need())
      && t.chunks[m] == Chunk(req.Need(), Used(req.kind, req.ignoreOffPage), Core(req.sz, false, false))
  {
    hide Filed, Tiled, ObjSzToBlocks, FlFromBlocks, SplitAt, FirstPart, SameCover, StartsAt, EndsAfter, Carved;
    MappedKeeps(s, h);
    var s1 := Mapped(s, h);
    SplitAtShape(s1, h, m, i);
    SplitAtKeeps(s1, h, m, i);
    var s2 := SplitAt(s1, h, m, i);
    FirstPartShape(s2, m, req.Need(), i);
    FirstPartKeeps(s2, m, req.Need(), i);
    var s3 := FirstPart(s2, m, req.Need(), i);
    CarvedInSteps(s.chunks, s1.chunks, s2.chunks, s3.chunks, Commit(s, req, h, m, i).chunks, h, m, req.Need());
  }

  /** d is c with chunk h mapped and, if m lies inside it, cut at m; both parts are free. */
  ghost predicate LeftFree(c: map<nat, Chunk>, d: map<nat, Chunk>, h: nat, m: nat)
    requires h in c
  {
    && m in d && d[m].n == h + c[h].n - m && d[m].use.Free? && !d[m].core.unmapped
    && (h < m ==> h in d && d[h].n == m - h && d[h].use.Free? && !d[h].core.unmapped)
    && (forall f :: f in c && f != h ==> f in d && d[f] == c[f])
    && (forall f :: f in d && f != h && f != m ==> f in c)
  }

  /** A request of no blocks leaves the whole chosen chunk free, the block it is given included. */
  lemma CommitLeavesFree(s: Heap, req: Request, h: nat, m: nat, i: nat)
    requires Placeable(s, req, h, m, i) && req.Need() == 0 && m < h + s.chunks[h].n
    ensures LeftFree(s.chunks, Commit(s, req, h, m, i).chunks, h, m)
  {
    hide InvExcept, ObjSzToBlocks, FlFromBlocks, SplitAt, FirstPart, SameCover, StartsAt, Weigh;
    ChunkFacts(s, h, 0, 0);
    MappedKeeps(s, h);
    var s1 := Mapped(s, h);
    SplitAtShape(s1, h, m, i);
    SplitAtKeeps(s1, h, m, i);
    NoFirstPart(SplitAt(s1, h, m, i), m, i);
    LeftInSteps(s.chunks, s1.chunks, SplitAt(s1, h, m, i).chunks, h, m);
  }

  lemma LeftInSteps(c: map<nat, Chunk>, c1: map<nat, Chunk>, c2: map<nat, Chunk>, h: nat, m: nat)
    requires h in c && h in c1 && c1 == c[h := c1[h]] && c1[h].n == c[h].n && h <= m && StartsAt(c1, c2, h, m)
    ensures LeftFree(c, c2[m := Chunk(c2[m].n, Free, Core(c2[m].n * HBLKSIZE, false, true))], h, m)
  {
  }

  /** A placement maps the chosen chunk and nothing else. */
  lemma CommitMapping(s: Heap, req: Request, h: nat, m: nat, i: nat)
    requires Placeable(s, req, h, m, i) && m < h + s.chunks[h].n && MappingAgrees(s)
    ensures MappingAgrees(Commit(s, req, h, m, i))
  {
    hide InvExcept, ObjSzToBlocks, FlFromBlocks, SameCover, MappingAgrees, Weigh, StartsAt;
    ChunkFacts(s, h, 0, 0);
    var s1 := Mapped(s, h);
    MappedKeeps(s, h);
    MappedMapping(s, h);
    var s2 := SplitAt(s1, h, m, i);
    SplitAtKeeps(s1, h, m, i);
    SplitAtMapping(s1, h, m, i);
    if req.Need() == 0 {
      NoFirstPart(s2, m, i);
      SameFlags(s2, FirstPart(s2, m, 0, i), m);
      SameFlags(FirstPart(s2, m, 0, i), Commit(s, req, h, m, i), m);
    } else {
      var s3 := FirstPart(s2, m, req.Need(), i);
      FirstPartKeeps(s2, m, req.Need(), i);
      FirstPartMapping(s2, m, req.Need(), i);
      SameFlags(s3, Commit(s, req, h, m, i), m);
    }
  }

  lemma SplitAtMapping(s: Heap, h: nat, m: nat, i: nat)
    requires Inv(s) && IsFree(s, h) && !s.chunks[h].core.unmapped && i <= N_HBLK_FLS && MappingAgrees(s)
    requires h <= m < h + s.chunks[h].n
    ensures MappingAgrees(SplitAt(s, h, m, i)) && !SplitAt(s, h, m, i).chunks[m].core.unmapped
  {
    NoChunkInside(s.chunks, h, m);
    hide InvExcept, FlFromBlocks, MappingAgrees;
    if m != h {
      CutMapping(s, Split(s, h, m, i), h, m);
    }
  }

  lemma FirstPartMapping(s: Heap, m: nat, need: nat, i: nat)
    requires InvExcept(s, m, i) && IsFree(s, m) && !s.chunks[m].core.unmapped && 0 < need <= s.chunks[m].n
    requires MappingAgrees(s)
    ensures MappingAgrees(FirstPart(s, m, need, i)) && !FirstPart(s, m, need, i).chunks[m].core.unmapped
  {
    assert i <= N_HBLK_FLS;
    NoChunkInside(s.chunks, m, if need < s.chunks[m].n then m + need else m);
    hide Tiled, Filed, FlFromBlocks, MappingAgrees;
    var s1 := Take(s, m, i);
    SameFlags(s, s1, m);
    if s.chunks[m].n != need {
      CutMapping(s1, Cut(s1, m, need), m, m + need);
      SameFlags(Cut(s1, m, need), FirstPart(s, m, need, i), m + need);
    }
  }

  /** Both remainders are filed on list i or earlier. */
  lemma CommitLaterLists(s: Heap, req: Request, h: nat, m: nat, i: nat)
    requires Placeable(s, req, h, m, i)
    ensures var t := Commit(s, req, h, m, i);
      |t.lists| == |s.lists| && forall j :: i < j < |s.lists| ==> t.lists[j] == s.lists[j]
  {
    hide InvExcept, ObjSzToBlocks, FlFromBlocks, Del, Blocks;
    ChunkFacts(s, h, 0, 0);
    var end := h + s.chunks[h].n;
    FlMonotone(m - h, end - h);
    FlMonotone(end - (m + req.Need()), end - h);
  }

  // ---- The free lists after a placement ----

  /** A list with x at its head, if it is to be filed here. */
  function Filing(x: nat, here: bool): seq<nat> {
    if here then [x] else []
  }

  lemma SplitAtLists(s: Heap, h: nat, m: nat, i: nat)
    requires Inv(s) && IsFree(s, h) && h <= m < h + s.chunks[h].n && i == FlFromBlocks(s.chunks[h].n)
    ensures |s.lists| == N_HBLK_FLS + 1 == |SplitAt(s, h, m, i).lists| && i <= N_HBLK_FLS
    ensures forall j :: 0 <= j <= N_HBLK_FLS ==>
              SplitAt(s, h, m, i).lists[j] ==
                Filing(h, h < m && j == FlFromBlocks(m - h)) + if j == i then Replace(s.lists[j], h, m) else s.lists[j]
  {
    hide InvExcept, FlFromBlocks;
    ChunkFacts(s, h, 0, 0);
    InItsList(s, h);
  }

  lemma FirstPartLists(s: Heap, m: nat, need: nat, i: nat)
    requires InvExcept(s, m, i) && IsFree(s, m) && need <= s.chunks[m].n
    ensures |s.lists| == N_HBLK_FLS + 1 == |FirstPart(s, m, need, i).lists| && i <= N_HBLK_FLS
    ensures var rest := s.chunks[m].n - need;
      forall j :: 0 <= j <= N_HBLK_FLS ==>
        FirstPart(s, m, need, i).lists[j] ==
          Filing(m + need, rest > 0 && j == FlFromBlocks(rest)) + if j == i then Del(s.lists[j], m) else s.lists[j]
  {
    hide InvExcept, FlFromBlocks, Del;
    ChunkFacts(s, m, m, i);
  }

  /** A placement takes the chosen chunk off its list and files the parts before and after the request
      at the heads of theirs, the part before first. No other list entry changes or moves. */
  lemma CommitLists(s: Heap, req: Request, h: nat, m: nat, i: nat, j: nat)
    requires Placeable(s, req, h, m, i) && m < h + s.chunks[h].n && j <= N_HBLK_FLS
    ensures |s.lists| == N_HBLK_FLS + 1 == |Commit(s, req, h, m, i).lists|
    ensures var before, after := m - h, h + s.chunks[h].n - (m + req.Need());
      Commit(s, req, h, m, i).lists[j] ==
        Filing(m + req.Need(), after > 0 && j == FlFromBlocks(after))
        + Filing(h, before > 0 && j == FlFromBlocks(before))
        + if j == i then Del(s.lists[j], h) else s.lists[j]
  {
    hide InvExcept, ObjSzToBlocks, FlFromBlocks, Commit, SplitAt, FirstPart, Mapped, Del, Filing, SameCover, Weigh;
    ChunkFacts(s, h, 0, 0);
    MappedKeeps(s, h);
    CarvedLists(Mapped(s, h), h, m, req.Need(), i, j);
    CommitListsAre(s, req, h, m, i);
  }

  lemma CommitListsAre(s: Heap, req: Request, h: nat, m: nat, i: nat)
    requires h in s.chunks && req.Valid() && h <= m && m + req.Need() <= h + s.chunks[h].n
    requires |s.lists| == N_HBLK_FLS + 1 && i <= N_HBLK_FLS
    ensures Commit(s, req, h, m, i).lists == FirstPart(SplitAt(Mapped(s, h), h, m, i), m, req.Need(), i).lists
  {
    hide SplitAt, FirstPart, Mapped, ObjSzToBlocks;
  }

  lemma CarvedLists(s: Heap, h: nat, m: nat, need: nat, i: nat, j: nat)
    requires Inv(s) && IsFree(s, h) && h <= m < h + s.chunks[h].n && i == FlFromBlocks(s.chunks[h].n)
    requires m + need <= h + s.chunks[h].n && j <= N_HBLK_FLS
    ensures |s.lists| == N_HBLK_FLS + 1 == |SplitAt(s, h, m, i).lists| && i <= N_HBLK_FLS
    ensures var t := FirstPart(SplitAt(s, h, m, i), m, need, i);
      var before, after := m - h, h + s.chunks[h].n - (m + need);
      && |t.lists| == N_HBLK_FLS + 1
      && t.lists[j] ==
           Filing(m + need, after > 0 && j == FlFromBlocks(after))
           + Filing(h, before > 0 && j == FlFromBlocks(before))
           + if j == i then Del(s.lists[j], h) else s.lists[j]
  {
    hide InvExcept, FlFromBlocks, SplitAt, FirstPart, Del, Replace, Filing, SameCover, Weigh;
    ChunkFacts(s, h, 0, 0);
    SplitAtKeeps(s, h, m, i);
    SplitAtLists(s, h, m, i);
    var s2 := SplitAt(s, h, m, i);
    FirstPartLists(s2, m, need, i);
    SplitThenTaken(s, h, m, i);
    var after := h + s.chunks[h].n - (m + need);
    var rest := Filing(m + need, after > 0 && j == FlFromBlocks(after));
    var filed := Filing(h, h < m && j == FlFromBlocks(m - h));
    if j == i {
      Associative(rest, filed, Del(s.lists[j], h));
    } else {
      Associative(rest, filed, s.lists[j]);
    }
  }

  lemma Associative(a: seq<nat>, b: seq<nat>, c: seq<nat>)
    ensures a + (b + c) == a + b + c
  {
  }

  lemma SplitThenTaken(s: Heap, h: nat, m: nat, i: nat)
    requires Inv(s) && IsFree(s, h) && h <= m < h + s.chunks[h].n && i == FlFromBlocks(s.chunks[h].n)
    ensures i < |s.lists|
    ensures var filed := Filing(h, h < m && i == FlFromBlocks(m - h));
      Del(filed + Replace(s.lists[i], h, m), m) == filed + Del(s.lists[i], h)
  {
    hide InvExcept, FlFromBlocks, Del, Replace;
    ChunkFacts(s, h, 0, 0);
    InItsList(s, h);
    var l := s.lists[i];
    if h < m {
      NothingInside(s, h, m, 0, 0);
      OnlyFreeListed(s, m, i);
      DelReplaced(l, h, m);
      DelBehind(Replace(l, h, m), h, m);
    } else {
      ReplaceSelf(l, h);
    }
    assert [] + Replace(l, h, m) == Replace(l, h, m);
    assert [] + Del(l, h) == Del(l, h);
  }

  lemma ReplaceSelf(l: seq<nat>, x: nat)
    ensures Replace(l, x, x) == l
  {
  }

  lemma OnlyFreeListed(s: Heap, m: nat, i: nat)
    requires Inv(s) && m !in s.chunks && i <= N_HBLK_FLS
    ensures m !in s.lists[i]
  {
    hide Tiled, Tagged, FlFromBlocks;
  }

  // ---- Dropping a wholly black-listed chunk ----

  /** The header that a dropped block receives. */
  function DroppedBlock(): Chunk {
    Chunk(1, Used(PTRFREE, false), Core(HBLKSIZE, false, false))
  }

  /** Blocks h to h + n made into single-block used chunks. */
  function DropBlocks(c: map<nat, Chunk>, h: nat, n: nat): map<nat, Chunk> {
    if n == 0 then c else DropBlocks(c, h, n - 1)[h + n - 1 := DroppedBlock()]
  }

  /** Chunk h leaves list i and is dropped in single blocks. */
  function Drop(s: Heap, h: nat, i: nat): Heap
    requires h in s.chunks && i < |s.lists|
  {
    var n := s.chunks[h].n;
    Heap(DropBlocks(s.chunks, h, n), s.lists[i := Del(s.lists[i], h)], s.unmapped,
         s.large - n * HBLKSIZE, s.dropped + n * HBLKSIZE, s.drops)
  }

  /** In d the blocks h to h + n are dropped blocks and the rest is as in c. */
  ghost predicate DroppedIn(c: map<nat, Chunk>, d: map<nat, Chunk>, h: nat, n: nat) {
    && (forall b: nat {:trigger b in d} :: h <= b < h + n ==> b in d && d[b] == DroppedBlock())
    && (forall b: nat {:trigger b in d} {:trigger b in c} :: !(h <= b < h + n) ==> (b in d <==> b in c))
    && (forall b: nat {:trigger c[b]} {:trigger d[b]} :: b in c && !(h <= b < h + n) ==> b in d && d[b] == c[b])
  }

  lemma {:induction false} DropBlocksAt(c: map<nat, Chunk>, h: nat, n: nat)
    ensures DroppedIn(c, DropBlocks(c, h, n), h, n)
  {
    if n > 0 {
      DropBlocksAt(c, h, n - 1);
      var e: map<nat, Chunk> := DropBlocks(c, h, n - 1);
      DropOne(c, e, h, n - 1);
    }
  }

  lemma DropOne(c: map<nat, Chunk>, e: map<nat, Chunk>, h: nat, n: nat)
    requires DroppedIn(c, e, h, n)
    ensures DroppedIn(c, e[h + n := DroppedBlock()], h, n + 1)
  {
  }

  lemma {:induction false} DropBlocksWeigh(c: map<nat, Chunk>, h: nat, n: nat, w: Which)
    requires n > 0 && h in c && (forall b :: h < b < h + n ==> b !in c)
    ensures Weigh(DropBlocks(c, h, n), w) ==
              Weigh(c, w) - Weight(c[h], w) + if w == OnlyFree then 0 else n
  {
    hide Weigh;
    DropBlocksAt(c, h, n - 1);
    if n == 1 {
      assert DropBlocks(c, h, 0) == c;
    } else {
      DropBlocksWeigh(c, h, n - 1, w);
    }
    WeighPut(DropBlocks(c, h, n - 1), h + n - 1, DroppedBlock(), w);
  }

  lemma DropTiles(s: Heap, h: nat)
    requires Inv(s) && IsFree(s, h)
    ensures var d := DropBlocks(s.chunks, h, s.chunks[h].n);
      Tiled(d) && SameCover(s.chunks, d)
  {
    var n := s.chunks[h].n;
    var d := DropBlocks(s.chunks, h, n);
    DropBlocksAt(s.chunks, h, n);
    forall b: nat
      ensures Covered(s.chunks, b) <==> Covered(d, b)
    {
      if Covered(s.chunks, b) {
        var f :| f in s.chunks && f <= b < f + s.chunks[f].n;
        if f == h {
          assert b in d && d[b] == DroppedBlock();
        } else {
          assert f in d && d[f] == s.chunks[f];
        }
      }
      if Covered(d, b) {
        var f :| f in d && f <= b < f + d[f].n;
        assert if h <= f < h + n then b < h + n else f in s.chunks && b < f + s.chunks[f].n;
      }
    }
  }

  lemma DropKeeps(s: Heap, h: nat, i: nat)
    requires Inv(s) && IsFree(s, h) && i == FlFromBlocks(s.chunks[h].n)
    ensures Inv(Drop(s, h, i)) && SameCover(s.chunks, Drop(s, h, i).chunks)
    ensures |Drop(s, h, i).lists[i]| == |s.lists[i]| - 1
  {
    DropTiles(s, h);
    DropBlocksAt(s.chunks, h, s.chunks[h].n);
    TakeKeeps(s, h, i, 0, 0);
    DropFiles(s, h, i);
  }

  lemma DropFiles(s: Heap, h: nat, i: nat)
    requires Inv(s) && IsFree(s, h) && i == FlFromBlocks(s.chunks[h].n)
    ensures Filed(Drop(s, h, i).chunks, Drop(s, h, i).lists, 0, 0)
    ensures forall f :: f in Drop(s, h, i).chunks ==> Tagged(Drop(s, h, i).chunks[f])
  {
    var n := s.chunks[h].n;
    var t := Drop(s, h, i);
    DropBlocksAt(s.chunks, h, n);
    DelElements(s.lists[i], h);
    hide FlFromBlocks, DropBlocks;
    assert ObjSzToBlocks(HBLKSIZE) == 1;
    forall f | f in s.chunks && h <= f < h + n
      ensures f == h
    {
    }
  }

  /** Dropping moves exactly the chunk's bytes from the free counter to the dropped one. */
  lemma DropWeighs(s: Heap, h: nat, i: nat)
    requires Inv(s) && IsFree(s, h) && i <= N_HBLK_FLS
    ensures var t := Drop(s, h, i);
      && FreeBlocks(t) == FreeBlocks(s) - s.chunks[h].n && TotalBlocks(t) == TotalBlocks(s)
      && t.large - s.large == (FreeBlocks(t) - FreeBlocks(s)) * HBLKSIZE
      && t.large + t.dropped == s.large + s.dropped
  {
    forall b | h < b < h + s.chunks[h].n
      ensures b !in s.chunks
    {
    }
    hide InvExcept;
    DropBlocksWeigh(s.chunks, h, s.chunks[h].n, OnlyFree);
    DropBlocksWeigh(s.chunks, h, s.chunks[h].n, All);
  }
}
