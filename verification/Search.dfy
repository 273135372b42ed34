/** The walk over the free lists: what it finds, what it drops, and why it misses nothing. */
module Search {
  import opened Words
  import opened FreeListIndex
  import opened Sequences
  import opened Chunks
  import opened BlackList
  import opened Allocation

  /** The heap after the walk; when m != 0 the request goes to m inside free chunk h. */
  datatype Outcome = Outcome(s: Heap, h: nat, m: nat)

  function Tick(s: Heap): Heap {
    Heap(s.chunks, s.lists, s.unmapped, s.large, s.dropped, s.drops + 1)
  }

  /** After a wholly black-listed candidate: every fourth one is dropped. */
  function Shed(s: Heap, h: nat, i: nat): Heap
    requires h in s.chunks && i < |s.lists|
  {
    if Tick(s).drops % 4 == 0 then Drop(Tick(s), h, i) else Tick(s)
  }

  ghost predicate Ready(s: Heap, req: Request, i: nat) {
    Inv(s) && req.Valid() && i <= N_HBLK_FLS
  }

  /** The walk for the request stands at position k of list i. */
  ghost predicate At(s: Heap, req: Request, i: nat, k: nat) {
    Stands(s, i, k) && req.Valid()
  }

  ghost function Verdict(s: Heap, env: Env, req: Request, i: nat, split: MaySplit, k: nat): (v: Verdict)
    requires At(s, req, i, k)
    ensures v.TakeFrom? ==> Placeable(s, req, ChunkAt(s, i, k), v.m, i)
  {
    StandsOnFree(s, i, k);
    Judge(s, env, req, split, ListOf(s, i), k)
  }

  lemma TickKeeps(s: Heap)
    requires Inv(s)
    ensures Inv(Tick(s)) && SameCover(s.chunks, Tick(s).chunks)
  {
    hide Covered;
  }

  lemma ShedKeeps(s: Heap, h: nat, i: nat)
    requires Inv(s) && IsFree(s, h) && i == FlFromBlocks(s.chunks[h].n)
    ensures var t := Shed(s, h, i);
      && Inv(t) && SameCover(s.chunks, t.chunks) && TotalBlocks(t) == TotalBlocks(s)
      && |ListOf(t, i)| == |ListOf(s, i)| - (if (s.drops + 1) % 4 == 0 then 1 else 0)
      && t.large - s.large == (FreeBlocks(t) - FreeBlocks(s)) * HBLKSIZE
      && t.large + t.dropped == s.large + s.dropped
      && FreeBlocks(t) <= FreeBlocks(s)
  {
    hide InvExcept, FlFromBlocks, SameCover, Weigh, DropBlocks;
    ChunkFacts(s, h, 0, 0);
    TickKeeps(s);
    if Tick(s).drops % 4 == 0 {
      DropKeeps(Tick(s), h, i);
      DropWeighs(Tick(s), h, i);
    }
  }

  /** Position of the successor after the candidate at k was shed. */
  function After(s: Heap, k: nat): nat {
    if (s.drops + 1) % 4 == 0 then k else k + 1
  }

  /** The candidate at k shed: the heap the walk goes on with. */
  ghost function Onward(s: Heap, req: Request, i: nat, k: nat): (t: Heap)
    requires At(s, req, i, k)
    ensures Ready(t, req, i) && |ListOf(t, i)| - After(s, k) < |ListOf(s, i)| - k
  {
    ShedKeeps(s, ChunkAt(s, i, k), i);
    Shed(s, ChunkAt(s, i, k), i)
  }

  /** `GC_allochblk_nth` up to its choice, from position k of list i. */
  ghost function Find(s: Heap, env: Env, req: Request, i: nat, split: MaySplit, k: nat): (o: Outcome)
    requires Ready(s, req, i)
    decreases |ListOf(s, i)| - k
  {
    if k >= |ListOf(s, i)| then Outcome(s, 0, 0)
    else
      match Verdict(s, env, req, i, split, k)
      case Skip => Find(s, env, req, i, split, k + 1)
      case TakeFrom(m) => Outcome(s, ChunkAt(s, i, k), m)
      case Exhausted => Find(Onward(s, req, i, k), env, req, i, split, After(s, k))
  }

  // ---- What a walk changes ----

  /** Only wholly black-listed chunks of list i were dropped between s and t. */
  ghost predicate ShedOnly(s: Heap, t: Heap, env: Env, req: Request, i: nat) {
    && |s.lists| == |t.lists|
    && (forall f :: f in s.chunks ==> f in t.chunks)
    && (forall f :: f in s.chunks && t.chunks[f] != s.chunks[f] ==>
          DropsWholly(s.chunks[f], env, req, i, f) && t.chunks[f] == DroppedBlock())
    && (forall f :: f in t.chunks && f !in s.chunks ==> t.chunks[f] == DroppedBlock())
    && (forall j :: 0 <= j < |s.lists| && j != i ==> t.lists[j] == s.lists[j])
    && t.unmapped == s.unmapped
    && t.dropped >= s.dropped && (t.dropped == s.dropped ==> t.chunks == s.chunks)
  }

  /** Chunk k at f may be dropped for the request: single block, every start listed, no punting. */
  ghost predicate DropsWholly(k: Chunk, env: Env, req: Request, i: nat, f: nat) {
    && k.use.Free? && !k.core.unmapped && FlFromBlocks(k.n) == i
    && req.Need() == 1 && req.AvoidsBlackList() && !Punts(env, req, k.n)
    && forall b :: f <= b < f + k.n ==> env.bl.Listed(b, 1)
  }

  /** The request fits into a free chunk of n blocks at h, by a clear start or by punting. */
  ghost predicate HasRoom(env: Env, req: Request, h: nat, n: nat) {
    && req.Need() <= n
    && (req.AvoidsBlackList() ==> !NoClearStart(env, req, h, n) || Punts(env, req, n))
  }

  /** No block of the heap's false pointers at b, and none of the stacks' within w blocks of it. */
  ghost predicate ClearAt(bl: View, b: nat, w: nat) {
    !bl.Normal(b) && forall c :: b <= c < b + w ==> !bl.Stack(c)
  }

  /** Kinds 2 and 3 are uncollectable, kind 0 is free of pointers. */
  lemma AvoidsExactly(req: Request)
    ensures req.AvoidsBlackList() <==> req.kind !in {2, 3} && (req.kind == 0 ==> req.Need() > 2)
    ensures req.Exposed() == if req.ignoreOffPage || req.Need() == 0 then 1 else req.Need()
  {
    hide ObjSzToBlocks;
  }

  /** A chunk of n blocks at h has room exactly if it is large enough and, for a request that avoids the
      black list, some start leaves the exposed blocks clear or both the request and what would be left
      of the chunk are larger, in bytes, than the black-list spacing. */
  lemma RoomExactly(env: Env, req: Request, h: nat, n: nat)
    ensures var need, w := req.Need(), if req.ignoreOffPage || req.Need() == 0 then 1 else req.Need();
      HasRoom(env, req, h, n) <==>
        && need <= n
        && (req.kind !in {2, 3} && (req.kind == 0 ==> need > 2) ==>
              || (exists b: nat :: h <= b && b + need <= h + n && ClearAt(env.bl, b, w))
              || (need * 0x1_0000 > env.blLimit && (n - need) * 0x1_0000 > env.blLimit))
  {
    hide ObjSzToBlocks, Request.Exposed, Request.AvoidsBlackList;
    AvoidsExactly(req);
    if req.Need() <= n {
      SomeClear(env, req, h, n);
    }
  }

  lemma SomeClear(env: Env, req: Request, h: nat, n: nat)
    requires req.Need() <= n
    ensures !NoClearStart(env, req, h, n) <==>
              exists b: nat :: h <= b && b + req.Need() <= h + n && ClearAt(env.bl, b, req.Exposed())
  {
    hide ObjSzToBlocks, Request.Exposed;
    if !NoClearStart(env, req, h, n) {
      var b :| h <= b <= h + n - req.Need() && !env.bl.Listed(b, req.Exposed());
      assert ClearAt(env.bl, b, req.Exposed());
    }
    forall b: nat | h <= b && b + req.Need() <= h + n && ClearAt(env.bl, b, req.Exposed())
      ensures !NoClearStart(env, req, h, n)
    {
      assert !env.bl.Listed(b, req.Exposed());
    }
  }

  /** A chunk is spared exactly if the walk avoids remapping to split, the chunk is unmapped, and the
      request, avoiding the black list, would start in it but not at its first block. */
  lemma SparedExactly(k: Chunk, env: Env, req: Request, split: MaySplit, h: nat)
    requires req.Need() <= k.n
    ensures var need, w := req.Need(), if req.ignoreOffPage || req.Need() == 0 then 1 else req.Need();
      Spared(k, env, req, split, h) <==>
        && split == AvoidSplitRemapped && k.core.unmapped && req.kind !in {2, 3} && (req.kind == 0 ==> need > 2)
        && !ClearAt(env.bl, h, w)
        && exists b: nat :: h <= b && b + need <= h + k.n && ClearAt(env.bl, b, w)
  {
    hide ObjSzToBlocks, Request.Exposed, Request.AvoidsBlackList;
    AvoidsExactly(req);
    SomeClear(env, req, h, k.n);
  }

  /** Where the request goes in a chunk where it belongs at r: at its first block if it ignores the black
      list; else at the lowest clear start; and, if there is none, at the first block of a chunk that
      exceeds the request, as the request itself exceeds it, by more than the spacing in bytes. */
  lemma PlacedExactly(s: Heap, env: Env, req: Request, h: nat, r: nat)
    requires RightPlace(s, env, req, h, r)
    ensures var need, n := req.Need(), s.chunks[h].n;
      var w := if req.ignoreOffPage || need == 0 then 1 else need;
      if req.kind in {2, 3} || (req.kind == 0 && need <= 2) then r == h
      else if exists b: nat :: h <= b && b + need <= h + n && ClearAt(env.bl, b, w)
      then ClearAt(env.bl, r, w) && forall b: nat :: h <= b < r ==> !ClearAt(env.bl, b, w)
      else r == h && need * 0x1_0000 > env.blLimit && (n - need) * 0x1_0000 > env.blLimit
  {
    hide ObjSzToBlocks, Request.Exposed, Request.AvoidsBlackList;
    AvoidsExactly(req);
    SomeClear(env, req, h, s.chunks[h].n);
    forall b: nat
      ensures ClearAt(env.bl, b, req.Exposed()) <==> !env.bl.Listed(b, req.Exposed())
    {
    }
  }

  /** Block r of free chunk h is where the request belongs: the lowest clear start, or the
      chunk's first block when black-listing does not matter or there is no clear start
      and the request punts. */
  ghost predicate RightPlace(s: Heap, env: Env, req: Request, h: nat, r: nat) {
    && IsFree(s, h) && h <= r && r + req.Need() <= h + s.chunks[h].n
    && HasRoom(env, req, h, s.chunks[h].n)
    && (req.AvoidsBlackList() && !env.bl.Listed(r, req.Exposed()) ==>
          forall b :: h <= b < r ==> env.bl.Listed(b, req.Exposed()))
    && (req.AvoidsBlackList() && env.bl.Listed(r, req.Exposed()) ==>
          r == h && NoClearStart(env, req, h, s.chunks[h].n) && Punts(env, req, s.chunks[h].n))
    && (!req.AvoidsBlackList() ==> r == h)
  }

  /** The chosen chunk and start; without splitting the chunk is an exact fit. */
  ghost predicate Chosen(o: Outcome, env: Env, req: Request, i: nat, split: MaySplit) {
    && Placeable(o.s, req, o.h, o.m, i) && RightPlace(o.s, env, req, o.h, o.m)
    && (split == NoSplit ==> o.s.chunks[o.h].n == req.Need())
  }

  lemma JudgeExhausted(s: Heap, env: Env, req: Request, i: nat, split: MaySplit, k: nat)
    requires At(s, req, i, k) && Verdict(s, env, req, i, split, k) == Exhausted
    ensures DropsWholly(s.chunks[ChunkAt(s, i, k)], env, req, i, ChunkAt(s, i, k))
  {
    StandsOnFree(s, i, k);
    hide Filed, Tiled, FlFromBlocks, NextIsBetter;
  }

  lemma ShedShape(s: Heap, env: Env, req: Request, h: nat, i: nat)
    requires Inv(s) && IsFree(s, h) && i <= N_HBLK_FLS && DropsWholly(s.chunks[h], env, req, i, h)
    ensures ShedOnly(s, Shed(s, h, i), env, req, i)
  {
    DropBlocksAt(s.chunks, h, s.chunks[h].n);
    forall f | f in s.chunks && h <= f < h + s.chunks[h].n
      ensures f == h
    {
    }
    hide InvExcept, FlFromBlocks, DropsWholly, DropBlocks;
  }

  lemma ShedCompose(s: Heap, t: Heap, u: Heap, env: Env, req: Request, i: nat)
    requires ShedOnly(s, t, env, req, i) && ShedOnly(t, u, env, req, i)
    ensures ShedOnly(s, u, env, req, i)
  {
    assert !DropsWholly(DroppedBlock(), env, req, i, 0);
    hide FlFromBlocks;
  }

  lemma JudgeTakes(s: Heap, env: Env, req: Request, i: nat, split: MaySplit, k: nat)
    requires At(s, req, i, k) && Verdict(s, env, req, i, split, k).TakeFrom?
    ensures Chosen(Outcome(s, ChunkAt(s, i, k), Verdict(s, env, req, i, split, k).m), env, req, i, split)
  {
    StandsOnFree(s, i, k);
    hide Filed, Tiled, FlFromBlocks, NextIsBetter, ObjSzToBlocks;
  }

  /** The invariant holds in t, which covers the same blocks, and every byte that left
      the free chunks since s left the free counter and entered the dropped counter. */
  ghost predicate Conserves(s: Heap, t: Heap) {
    && Inv(t) && SameCover(s.chunks, t.chunks) && TotalBlocks(t) == TotalBlocks(s)
    && t.large - s.large == (FreeBlocks(t) - FreeBlocks(s)) * HBLKSIZE
    && t.large + t.dropped == s.large + s.dropped
  }

  lemma ConservesCompose(s: Heap, t: Heap, u: Heap)
    requires Conserves(s, t) && Conserves(t, u)
    ensures Conserves(s, u)
  {
    hide InvExcept, SameCover, Weigh;
    CoverTransitive(s.chunks, t.chunks, u.chunks);
  }

  /** Whatever a walk does, it keeps the invariant, drops only what it may, and moves
      the dropped bytes between the counters. */
  lemma {:induction false} FindKeeps(s: Heap, env: Env, req: Request, i: nat, split: MaySplit, k: nat)
    requires Ready(s, req, i)
    ensures var o := Find(s, env, req, i, split, k);
      && Conserves(s, o.s) && ShedOnly(s, o.s, env, req, i)
      && (o.m != 0 ==> Chosen(o, env, req, i, split))
    decreases |ListOf(s, i)| - k
  {
    Unshed(s, env, req, i);
    hide InvExcept, ShedOnly, Chosen, Judge, Shed, Conserves, ObjSzToBlocks, FlFromBlocks, ListOf;
    if k < |ListOf(s, i)| {
      match Verdict(s, env, req, i, split, k) {
        case Skip =>
          FindKeeps(s, env, req, i, split, k + 1);
        case TakeFrom(m) =>
          JudgeTakes(s, env, req, i, split, k);
        case Exhausted =>
          var t := Onward(s, req, i, k);
          OnwardShape(s, env, req, i, split, k);
          FindKeeps(t, env, req, i, split, After(s, k));
          ConservesCompose(s, t, Find(s, env, req, i, split, k).s);
          ShedCompose(s, t, Find(s, env, req, i, split, k).s, env, req, i);
      }
    }
  }

  // ---- When a chunk is dropped ----

  /** A chunk counts towards a drop exactly if the request is for one block and avoids the black list,
      every block of the chunk is listed, it is mapped, no leaks are being looked for, the request does
      not punt, and the chunk would be taken otherwise: it is an exact fit, or splitting is on and no
      smaller chunk that is clear comes next. */
  lemma ExhaustedExactly(s: Heap, env: Env, req: Request, i: nat, split: MaySplit, k: nat)
    requires At(s, req, i, k)
    ensures var h := ChunkAt(s, i, k);
      var n := s.chunks[h].n;
      Verdict(s, env, req, i, split, k) == Exhausted <==>
        && req.Need() == 1 && req.AvoidsBlackList() && (forall b :: h <= b < h + n ==> env.bl.Listed(b, 1))
        && !s.chunks[h].core.unmapped && !env.findLeak
        && (0x1_0000 <= env.blLimit || (n - 1) * 0x1_0000 <= env.blLimit)
        && (n == 1 ||
            (split != NoSplit &&
             (Stands(s, i, k + 1) ==>
                var g := ChunkAt(s, i, k + 1); s.chunks[g].n >= n || env.bl.Listed(g, 1))))
  {
    hide InvExcept, ObjSzToBlocks, FlFromBlocks;
    ChunkFacts(s, ChunkAt(s, i, k), 0, 0);
    if Stands(s, i, k + 1) {
      ChunkFacts(s, ChunkAt(s, i, k + 1), 0, 0);
    }
  }

  /** Candidates for dropping that a walk meets. */
  ghost function Met(s: Heap, env: Env, req: Request, i: nat, split: MaySplit, k: nat): nat
    requires Ready(s, req, i)
    decreases |ListOf(s, i)| - k
  {
    if k >= |ListOf(s, i)| then 0
    else
      match Verdict(s, env, req, i, split, k)
      case Skip => Met(s, env, req, i, split, k + 1)
      case TakeFrom(_) => 0
      case Exhausted => 1 + Met(Onward(s, req, i, k), env, req, i, split, After(s, k))
  }

  /** The drop counter counts the candidates, and every fourth of them is dropped: the list gets shorter
      by as many chunks as the counter passes multiples of four. */
  lemma {:induction false} EveryFourthDropped(s: Heap, env: Env, req: Request, i: nat, split: MaySplit, k: nat)
    requires Ready(s, req, i)
    ensures var t := Find(s, env, req, i, split, k).s;
      && t.drops == s.drops + Met(s, env, req, i, split, k)
      && |ListOf(t, i)| == |ListOf(s, i)| - (t.drops / 4 - s.drops / 4)
    decreases |ListOf(s, i)| - k
  {
    hide InvExcept, ObjSzToBlocks, FlFromBlocks, Judge, Shed, ListOf;
    if k < |ListOf(s, i)| {
      match Verdict(s, env, req, i, split, k) {
        case Skip => EveryFourthDropped(s, env, req, i, split, k + 1);
        case TakeFrom(_) =>
        case Exhausted =>
          DropStep(s, req, i, k);
          EveryFourthDropped(Onward(s, req, i, k), env, req, i, split, After(s, k));
      }
    }
  }

  /** The candidate itself is the chunk dropped: each of its blocks becomes a used chunk of one block. */
  lemma DropStep(s: Heap, req: Request, i: nat, k: nat)
    requires At(s, req, i, k)
    ensures var h, t := ChunkAt(s, i, k), Onward(s, req, i, k);
      && t.drops == s.drops + 1
      && |ListOf(t, i)| == |ListOf(s, i)| - ((s.drops + 1) / 4 - s.drops / 4)
      && if t.drops % 4 == 0
         then forall b :: h <= b < h + s.chunks[h].n ==>
                b in t.chunks && t.chunks[b] == Chunk(1, Used(PTRFREE, false), Core(0x1_0000, false, false))
         else t.chunks == s.chunks && t.lists == s.lists
  {
    hide InvExcept, FlFromBlocks, DropBlocks, ObjSzToBlocks;
    var h := ChunkAt(s, i, k);
    ChunkFacts(s, h, 0, 0);
    ShedKeeps(s, h, i);
    DropBlocksAt(s.chunks, h, s.chunks[h].n);
  }

  lemma OnwardShape(s: Heap, env: Env, req: Request, i: nat, split: MaySplit, k: nat)
    requires At(s, req, i, k) && Verdict(s, env, req, i, split, k) == Exhausted
    ensures Conserves(s, Onward(s, req, i, k)) && ShedOnly(s, Onward(s, req, i, k), env, req, i)
  {
    hide Filed, Tiled, ShedOnly, Judge, Shed, Conserves, ObjSzToBlocks, FlFromBlocks, ListOf;
    JudgeExhausted(s, env, req, i, split, k);
    ShedShape(s, env, req, ChunkAt(s, i, k), i);
    ShedConserves(s, ChunkAt(s, i, k), i);
  }

  lemma ShedConserves(s: Heap, h: nat, i: nat)
    requires Inv(s) && IsFree(s, h) && i == FlFromBlocks(s.chunks[h].n)
    ensures Conserves(s, Shed(s, h, i))
  {
    ShedKeeps(s, h, i);
  }

  lemma Unshed(s: Heap, env: Env, req: Request, i: nat)
    requires Inv(s)
    ensures ShedOnly(s, s, env, req, i) && Conserves(s, s)
  {
  }

  // ---- The walk misses nothing ----

  /** A chunk k at h that the walk spares, although a start in it is clear: that start lies
      inside, so taking it would remap the chunk only to split it. */
  ghost predicate Spared(k: Chunk, env: Env, req: Request, split: MaySplit, h: nat) {
    && split == AvoidSplitRemapped && k.core.unmapped && req.AvoidsBlackList()
    && env.bl.Listed(h, req.Exposed()) && !NoClearStart(env, req, h, k.n)
  }

  /** Why a walk may pass over chunk k at h although the request fits. */
  ghost predicate PassedOver(k: Chunk, env: Env, req: Request, split: MaySplit, h: nat) {
    || !HasRoom(env, req, h, k.n)
    || (k.n != req.Need() && split == NoSplit)
    || Spared(k, env, req, split, h)
  }

  /** Going on to a smaller clear neighbour never loses the allocation. */
  lemma {:induction false} ClearStartIsTaken(s: Heap, env: Env, req: Request, i: nat, split: MaySplit, k: nat)
    requires At(s, req, i, k) && split != NoSplit
    requires s.chunks[ChunkAt(s, i, k)].n >= req.Need()
    requires !env.bl.Listed(ChunkAt(s, i, k), req.Width())
    ensures Find(s, env, req, i, split, k).m != 0
    decreases |ListOf(s, i)| - k
  {
    hide InvExcept, ObjSzToBlocks, FlFromBlocks;
    var h := ChunkAt(s, i, k);
    if s.chunks[h].n != req.Need() && NextIsBetter(s, env, req, ListOf(s, i), k) {
      ClearStartIsTaken(s, env, req, i, split, k + 1);
    } else {
      if env.bl.Listed(h, req.Exposed()) {
        ListedMonotone(env.bl, h, req.Exposed(), req.Width());
      }
      assert Verdict(s, env, req, i, split, k) == TakeFrom(h);
    }
  }

  /** Chunk h of list i is not followed there by a smaller chunk that is large enough and starts clear. */
  ghost predicate BestHere(s: Heap, env: Env, req: Request, i: nat, h: nat) {
    exists k: nat :: At(s, req, i, k) && ChunkAt(s, i, k) == h &&
      (At(s, req, i, k + 1) ==>
         var g := ChunkAt(s, i, k + 1);
         s.chunks[g].n >= s.chunks[h].n || s.chunks[g].n < req.Need() || env.bl.Listed(g, req.Width()))
  }

  lemma TakenIsBest(s: Heap, env: Env, req: Request, i: nat, k: nat)
    requires At(s, req, i, k) && !NextIsBetter(s, env, req, ListOf(s, i), k)
    ensures BestHere(s, env, req, i, ChunkAt(s, i, k))
  {
    hide InvExcept, ObjSzToBlocks, FlFromBlocks;
    if At(s, req, i, k + 1) {
      assert ChunkAt(s, i, k + 1) == ListOf(s, i)[k + 1];
    }
  }

  /** The walk never breaks up a chunk when the next one on the list is obviously better, and under
      AvoidSplitRemapped it never places a request inside an unmapped chunk. */
  lemma {:induction false} SplitsForCause(s: Heap, env: Env, req: Request, i: nat, split: MaySplit, k: nat)
    requires Ready(s, req, i) && Find(s, env, req, i, split, k).m != 0
    ensures var o := Find(s, env, req, i, split, k);
      && IsFree(o.s, o.h)
      && (o.s.chunks[o.h].n != req.Need() ==> split != NoSplit && BestHere(o.s, env, req, i, o.h))
      && (split == AvoidSplitRemapped && o.m != o.h ==> !o.s.chunks[o.h].core.unmapped)
    decreases |ListOf(s, i)| - k
  {
    hide InvExcept, ObjSzToBlocks, FlFromBlocks, Shed;
    match Verdict(s, env, req, i, split, k) {
      case Skip => SplitsForCause(s, env, req, i, split, k + 1);
      case TakeFrom(_) =>
        if !NextIsBetter(s, env, req, ListOf(s, i), k) {
          TakenIsBest(s, env, req, i, k);
        }
      case Exhausted => SplitsForCause(Onward(s, req, i, k), env, req, i, split, After(s, k));
    }
  }

  /** Nothing is wrong with chunk k but the neighbour after it. */
  lemma SkipReason(s: Heap, env: Env, req: Request, i: nat, split: MaySplit, k: nat)
    requires At(s, req, i, k) && Verdict(s, env, req, i, split, k) == Skip && split != NoSplit
    requires HasRoom(env, req, ChunkAt(s, i, k), s.chunks[ChunkAt(s, i, k)].n)
    requires !Spared(s.chunks[ChunkAt(s, i, k)], env, req, split, ChunkAt(s, i, k))
    ensures NextIsBetter(s, env, req, ListOf(s, i), k)
  {
    hide InvExcept, ObjSzToBlocks, FlFromBlocks;
  }

  lemma ExhaustedHasNoRoom(s: Heap, env: Env, req: Request, i: nat, split: MaySplit, k: nat)
    requires At(s, req, i, k) && Verdict(s, env, req, i, split, k) == Exhausted
    ensures !HasRoom(env, req, ChunkAt(s, i, k), s.chunks[ChunkAt(s, i, k)].n)
  {
    hide InvExcept, ObjSzToBlocks, FlFromBlocks;
    JudgeExhausted(s, env, req, i, split, k);
    ChunkFacts(s, ChunkAt(s, i, k), 0, 0);
  }

  lemma DifferentPlaces(s: Heap, i: nat, j: nat, k: nat)
    requires Stands(s, i, j) && Stands(s, i, k) && j != k
    ensures ListOf(s, i)[j] != ListOf(s, i)[k]
  {
    hide Tiled, Tagged, FlFromBlocks;
  }

  /** With splitting on, a walk that ends at the chunk at position p has passed a chunk before it that
      had room, and that it did not spare from remapping, only for a smaller chunk that comes next on
      the list, is still large enough, and starts with as many clear blocks as the request asks about. */
  lemma {:induction false} PassedForBetter(s: Heap, env: Env, req: Request, i: nat, split: MaySplit,
                                           k: nat, j: nat, p: nat)
    requires At(s, req, i, p) && k <= j < p && split != NoSplit
    requires Find(s, env, req, i, split, k).m != 0 && Find(s, env, req, i, split, k).h == ListOf(s, i)[p]
    requires Stands(s, i, j) && HasRoom(env, req, ChunkAt(s, i, j), s.chunks[ChunkAt(s, i, j)].n)
    requires !Spared(s.chunks[ChunkAt(s, i, j)], env, req, split, ChunkAt(s, i, j))
    ensures Stands(s, i, j + 1)
    ensures var g, next := ChunkAt(s, i, j), ChunkAt(s, i, j + 1);
      && req.Need() <= s.chunks[next].n < s.chunks[g].n
      && !env.bl.Normal(next)
      && forall c :: next <= c < next + (if req.Need() == 0 then 1 else req.Need()) ==> !env.bl.Stack(c)
    decreases |ListOf(s, i)| - k
  {
    hide InvExcept, ObjSzToBlocks, FlFromBlocks, Shed, HasRoom, Spared, Judge;
    match Verdict(s, env, req, i, split, k) {
      case Skip =>
        if j == k {
          SkipReason(s, env, req, i, split, k);
        } else {
          PassedForBetter(s, env, req, i, split, k + 1, j, p);
        }
      case TakeFrom(_) =>
        DifferentPlaces(s, i, k, p);
      case Exhausted =>
        if j == k {
          ExhaustedHasNoRoom(s, env, req, i, split, k);
        } else {
          var t, d := Onward(s, req, i, k), if After(s, k) == k then 1 else 0;
          StillThere(s, req, i, k, j);
          StillThere(s, req, i, k, j + 1);
          StillThere(s, req, i, k, p);
          PassedForBetter(t, env, req, i, split, After(s, k), j - d, p - d);
        }
    }
  }

  lemma SkippedHere(s: Heap, env: Env, req: Request, i: nat, split: MaySplit, k: nat)
    requires At(s, req, i, k) && Find(s, env, req, i, split, k).m == 0
    ensures PassedOver(s.chunks[ChunkAt(s, i, k)], env, req, split, ChunkAt(s, i, k))
  {
    hide InvExcept, ObjSzToBlocks, FlFromBlocks, Shed;
    var n := s.chunks[ChunkAt(s, i, k)].n;
    if n > req.Need() && split != NoSplit && NextIsBetter(s, env, req, ListOf(s, i), k) {
      ClearStartIsTaken(s, env, req, i, split, k + 1);
    }
  }

  /** A walk that comes back empty has passed over every chunk it was given, for cause. */
  lemma {:induction false} FindComplete(s: Heap, env: Env, req: Request, i: nat, split: MaySplit, k: nat, j: nat)
    requires At(s, req, i, j) && k <= j
    requires Find(s, env, req, i, split, k).m == 0
    ensures PassedOver(s.chunks[ChunkAt(s, i, j)], env, req, split, ChunkAt(s, i, j))
    decreases |ListOf(s, i)| - k
  {
    hide InvExcept, PassedOver, Judge, Shed, ObjSzToBlocks, FlFromBlocks, ListOf;
    if j == k {
      SkippedHere(s, env, req, i, split, k);
    } else if Verdict(s, env, req, i, split, k).Skip? {
      FindComplete(s, env, req, i, split, k + 1, j);
    } else {
      var t, j' := Onward(s, req, i, k), if After(s, k) == k then j - 1 else j;
      StillThere(s, req, i, k, j);
      FindComplete(t, env, req, i, split, After(s, k), j');
    }
  }

  /** After the candidate at position k, whether dropped or not, a later chunk is unchanged
      and at its old position or one before it. */
  lemma StillThere(s: Heap, req: Request, i: nat, k: nat, j: nat)
    requires At(s, req, i, j) && k < j
    ensures var t, j' := Onward(s, req, i, k), if After(s, k) == k then j - 1 else j;
      && At(t, req, i, j') && ChunkAt(t, i, j') == ChunkAt(s, i, j)
      && t.chunks[ChunkAt(t, i, j')] == s.chunks[ChunkAt(s, i, j)]
  {
    hide InvExcept, FlFromBlocks, Shed, ObjSzToBlocks;
    ShedChunk(s, req, i, k, j);
    ShedList(s, req, i, k, j);
  }

  lemma ShedChunk(s: Heap, req: Request, i: nat, k: nat, j: nat)
    requires At(s, req, i, j) && k < j
    ensures var f, c := ChunkAt(s, i, j), Onward(s, req, i, k).chunks;
      f in c && c[f] == s.chunks[f]
  {
    var h, f := ChunkAt(s, i, k), ChunkAt(s, i, j);
    assert h != f && !(h <= f < h + s.chunks[h].n);
    hide InvExcept, FlFromBlocks, DropBlocks, ObjSzToBlocks;
    DropBlocksAt(s.chunks, h, s.chunks[h].n);
  }

  lemma ShedList(s: Heap, req: Request, i: nat, k: nat, j: nat)
    requires At(s, req, i, j) && k < j
    ensures var l, j' := ListOf(Onward(s, req, i, k), i), if After(s, k) == k then j - 1 else j;
      j' < |l| && l[j'] == ListOf(s, i)[j]
  {
    PositionUnique(s.lists[i], k);
    hide InvExcept, FlFromBlocks, DropBlocks, ObjSzToBlocks;
  }

  // ---- One list ----

  /** `GC_allochblk_nth`: the heap afterwards and the block granted, or 0. */
  ghost function Nth(s: Heap, env: Env, req: Request, i: nat, split: MaySplit): (r: (Heap, nat))
    requires Ready(s, req, i)
  {
    FindKeeps(s, env, req, i, split, 0);
    var o := Find(s, env, req, i, split, 0);
    if o.m == 0 then (o.s, 0) else (Commit(o.s, req, o.h, o.m, i), o.m)
  }

  /** The request took exactly its own bytes from the free chunks and their counter. */
  ghost predicate Grants(s: Heap, t: Heap, bytes: nat) {
    && Inv(t) && SameCover(s.chunks, t.chunks) && TotalBlocks(t) == TotalBlocks(s)
    && t.large - s.large == (FreeBlocks(t) - FreeBlocks(s)) * HBLKSIZE
    && t.large + t.dropped + bytes == s.large + s.dropped
  }

  lemma CommitGrants(s: Heap, u: Heap, req: Request, h: nat, m: nat, i: nat)
    requires Conserves(s, u) && Placeable(u, req, h, m, i) && m < h + u.chunks[h].n
    ensures Grants(s, Commit(u, req, h, m, i), req.Need() * HBLKSIZE)
  {
    hide Filed, Tiled, SameCover, Commit, Weigh, ObjSzToBlocks;
    CommitKeeps(u, req, h, m, i);
    CommitCovers(u, req, h, m, i);
    CommitWeighs(u, req, h, m, i);
    CoverTransitive(s.chunks, u.chunks, Commit(u, req, h, m, i).chunks);
  }

  /** The walk chooses the block just past its chunk, as only a request of no blocks can. */
  ghost predicate Overruns(s: Heap, env: Env, req: Request, i: nat, split: MaySplit)
    requires Ready(s, req, i)
  {
    var o := Find(s, env, req, i, split, 0);
    o.m != 0 && o.h in o.s.chunks && o.m == o.h + o.s.chunks[o.h].n
  }

  /** The header at r claims a used chunk of no blocks. */
  predicate Overwritten(t: Heap, r: nat) {
    r in t.chunks && t.chunks[r].use.Used? && t.chunks[r].n == 0
  }

  /** A walk that overruns breaks the invariant; every other walk keeps it, and moves exactly its own
      and the dropped bytes. */
  lemma NthKeeps(s: Heap, env: Env, req: Request, i: nat, split: MaySplit)
    requires Ready(s, req, i)
    ensures var (t, r) := Nth(s, env, req, i, split);
      if Overruns(s, env, req, i, split) then r != 0 && req.Need() == 0 && Overwritten(t, r) && !Inv(t)
      else Grants(s, t, if r == 0 then 0 else req.Need() * HBLKSIZE)
  {
    hide InvExcept, SameCover, ShedOnly, Commit, Find, NoClearStart, Weigh;
    FindKeeps(s, env, req, i, split, 0);
    var o := Find(s, env, req, i, split, 0);
    if Overruns(s, env, req, i, split) {
      CommitOverwrites(o.s, req, o.h, o.m, i);
      ChunkFacts(o.s, o.h, 0, 0);
    } else if o.m != 0 {
      CommitGrants(s, o.s, req, o.h, o.m, i);
    }
  }

  /** What an overrun takes: the request is of no blocks and avoids black-listed ones, every block of
      the chosen chunk is black-listed, and the one after it is not. */
  lemma OverrunMeans(s: Heap, env: Env, req: Request, i: nat, split: MaySplit) returns (h: nat)
    requires Ready(s, req, i) && Overruns(s, env, req, i, split)
    ensures req.Need() == 0 && req.AvoidsBlackList()
    ensures IsFree(s, h) && FlFromBlocks(s.chunks[h].n) == i && Nth(s, env, req, i, split).1 == h + s.chunks[h].n
    ensures forall b :: h <= b < h + s.chunks[h].n ==> env.bl.Listed(b, 1)
    ensures !env.bl.Listed(h + s.chunks[h].n, 1)
  {
    hide InvExcept, ShedOnly, Commit, Find, ObjSzToBlocks, FlFromBlocks, NoClearStart;
    FindKeeps(s, env, req, i, split, 0);
    var o := Find(s, env, req, i, split, 0);
    h := o.h;
    ChunkFacts(o.s, h, 0, 0);
    StillFree(s, o.s, env, req, i, h);
    assert req.Exposed() == 1;
  }

  /** What an empty walk over any lists leaves: used chunks as they were, free chunks as they
      were or, where the request had no room anyway, dropped. */
  ghost predicate OnlyHopelessLost(s: Heap, t: Heap, env: Env, req: Request) {
    && (forall f :: f in s.chunks && !s.chunks[f].use.Free? ==> f in t.chunks && t.chunks[f] == s.chunks[f])
    && (forall f :: IsFree(t, f) ==> f in s.chunks && s.chunks[f] == t.chunks[f])
    && (forall f :: IsFree(s, f) && HasRoom(env, req, f, s.chunks[f].n) ==> f in t.chunks && t.chunks[f] == s.chunks[f])
    && t.dropped >= s.dropped && (t.dropped == s.dropped ==> t.chunks == s.chunks)
  }

  lemma ShedLosesHopeless(s: Heap, t: Heap, env: Env, req: Request, i: nat)
    requires ShedOnly(s, t, env, req, i) && Tiled(s.chunks)
    ensures OnlyHopelessLost(s, t, env, req)
  {
    hide ObjSzToBlocks, FlFromBlocks;
    forall f | IsFree(s, f) && HasRoom(env, req, f, s.chunks[f].n)
      ensures f in t.chunks && t.chunks[f] == s.chunks[f]
    {
      assert s.chunks[f].n >= 1;
    }
  }

  /** The grant of block r in t: a complete header, used chunks of s as they were, and,
      when nothing was dropped, no change outside the chosen chunk. */
  ghost predicate Granted(s: Heap, t: Heap, env: Env, req: Request, r: nat) {
    && r in t.chunks
    && t.chunks[r] == Chunk(req.Need(), Used(req.kind, req.ignoreOffPage), Core(req.sz, false, false))
    && (forall f :: f in s.chunks && !s.chunks[f].use.Free? ==> f in t.chunks && t.chunks[f] == s.chunks[f])
    && t.dropped >= s.dropped
    && (exists h :: RightPlace(s, env, req, h, r) &&
          (t.dropped == s.dropped ==> Carved(s.chunks, t.chunks, h, r, req.Need())))
  }

  lemma CommitGranted(s: Heap, o: Outcome, env: Env, req: Request, i: nat, split: MaySplit)
    requires OnlyHopelessLost(s, o.s, env, req) && Chosen(o, env, req, i, split) && req.Need() > 0
    ensures Granted(s, Commit(o.s, req, o.h, o.m, i), env, req, o.m)
  {
    CommitCarves(o.s, req, o.h, o.m, i);
    hide Filed, Tiled, ObjSzToBlocks, FlFromBlocks, Commit, NoClearStart;
    assert RightPlace(s, env, req, o.h, o.m);
  }

  /** The answer to a request of no blocks: block r of t is free, used chunks of s are as they were,
      and, when nothing was dropped, no change outside the chosen chunk. */
  ghost predicate GivenFree(s: Heap, t: Heap, env: Env, req: Request, r: nat) {
    && IsFree(t, r) && !t.chunks[r].core.unmapped
    && (forall f :: f in s.chunks && !s.chunks[f].use.Free? ==> f in t.chunks && t.chunks[f] == s.chunks[f])
    && t.dropped >= s.dropped
    && (exists h :: RightPlace(s, env, req, h, r) && (t.dropped == s.dropped ==> LeftFree(s.chunks, t.chunks, h, r)))
  }

  lemma CommitGivesFree(s: Heap, o: Outcome, env: Env, req: Request, i: nat, split: MaySplit)
    requires OnlyHopelessLost(s, o.s, env, req) && Chosen(o, env, req, i, split)
    requires req.Need() == 0 && o.m < o.h + o.s.chunks[o.h].n
    ensures GivenFree(s, Commit(o.s, req, o.h, o.m, i), env, req, o.m)
  {
    hide InvExcept, ObjSzToBlocks, FlFromBlocks, Commit, NoClearStart, Weigh;
    CommitLeavesFree(o.s, req, o.h, o.m, i);
    CommitWeighs(o.s, req, o.h, o.m, i);
    assert RightPlace(s, env, req, o.h, o.m);
  }

  /** What the caller is left with: nothing, a used chunk, or, for a request of no blocks, a free one. */
  ghost predicate Answered(s: Heap, t: Heap, env: Env, req: Request, r: nat) {
    if r == 0 then OnlyHopelessLost(s, t, env, req)
    else if req.Need() > 0 then Granted(s, t, env, req, r)
    else GivenFree(s, t, env, req, r)
  }

  lemma NthGranted(s: Heap, env: Env, req: Request, i: nat, split: MaySplit)
    requires Ready(s, req, i) && !Overruns(s, env, req, i, split)
    ensures var (t, r) := Nth(s, env, req, i, split); Answered(s, t, env, req, r)
  {
    hide Filed, ShedOnly, OnlyHopelessLost, Commit, Find, Chosen, Granted, GivenFree, ObjSzToBlocks, FlFromBlocks;
    FindKeeps(s, env, req, i, split, 0);
    var o := Find(s, env, req, i, split, 0);
    ShedLosesHopeless(s, o.s, env, req, i);
    if o.m != 0 {
      ChosenInside(o, env, req, i, split);
      if req.Need() > 0 {
        CommitGranted(s, o, env, req, i, split);
      } else {
        CommitGivesFree(s, o, env, req, i, split);
      }
    }
  }

  lemma ChosenInside(o: Outcome, env: Env, req: Request, i: nat, split: MaySplit)
    requires Chosen(o, env, req, i, split)
    ensures o.h in o.s.chunks && o.h <= o.m <= o.h + o.s.chunks[o.h].n
  {
    hide InvExcept, ObjSzToBlocks, FlFromBlocks, RightPlace;
  }

  /** Only a request of one block drops anything. */
  lemma {:induction false} FindDropsNothing(s: Heap, env: Env, req: Request, i: nat, split: MaySplit, k: nat)
    requires Ready(s, req, i) && req.Need() != 1
    ensures Find(s, env, req, i, split, k).s == s
    decreases |ListOf(s, i)| - k
  {
    hide InvExcept, ObjSzToBlocks, FlFromBlocks, Shed;
    if k < |ListOf(s, i)| && Verdict(s, env, req, i, split, k).Skip? {
      FindDropsNothing(s, env, req, i, split, k + 1);
    }
  }

  /** An empty walk of list i: no chunk of that list had room, save those it had to pass over. */
  lemma NthComplete(s: Heap, env: Env, req: Request, i: nat, split: MaySplit, h: nat)
    requires Ready(s, req, i) && Nth(s, env, req, i, split).1 == 0
    requires IsFree(s, h) && FlFromBlocks(s.chunks[h].n) == i
    ensures PassedOver(s.chunks[h], env, req, split, h)
  {
    assert h in s.lists[i];
    var j := IndexOf(s.lists[i], h);
    FindKeeps(s, env, req, i, split, 0);
    hide InvExcept, FlFromBlocks, Find, PassedOver, ObjSzToBlocks, Commit;
    FindComplete(s, env, req, i, split, 0, j);
  }

  /** A walk of list i that grants a block found it in a chunk of that list that had room and
      was not to be spared, an exact fit if splitting was off. */
  lemma NthTakes(s: Heap, env: Env, req: Request, i: nat, split: MaySplit) returns (h: nat)
    requires Ready(s, req, i) && Nth(s, env, req, i, split).1 != 0
    ensures IsFree(s, h) && HasRoom(env, req, h, s.chunks[h].n) && FlFromBlocks(s.chunks[h].n) == i
    ensures RightPlace(s, env, req, h, Nth(s, env, req, i, split).1)
    ensures split == NoSplit ==> s.chunks[h].n == req.Need()
    ensures !Spared(s.chunks[h], env, req, split, h)
  {
    hide InvExcept, ShedOnly, Find, Commit, ObjSzToBlocks, FlFromBlocks, BestHere, HasRoom, NoClearStart;
    FindKeeps(s, env, req, i, split, 0);
    SplitsForCause(s, env, req, i, split, 0);
    var o := Find(s, env, req, i, split, 0);
    h := o.h;
    StillFree(s, o.s, env, req, i, h);
  }

  lemma StillFree(s: Heap, t: Heap, env: Env, req: Request, i: nat, h: nat)
    requires ShedOnly(s, t, env, req, i) && Inv(s) && IsFree(t, h)
    ensures IsFree(s, h) && s.chunks[h] == t.chunks[h]
  {
    hide Filed, Tiled, ShedOnly, HasRoom, ObjSzToBlocks, FlFromBlocks;
    ShedLosesHopeless(s, t, env, req, i);
  }

  /** Dropped blocks were mapped, so dropping keeps flags and mapping in agreement. */
  lemma ShedMapping(s: Heap, t: Heap, env: Env, req: Request, i: nat)
    requires Tiled(s.chunks) && Tiled(t.chunks) && SameCover(s.chunks, t.chunks)
    requires ShedOnly(s, t, env, req, i) && MappingAgrees(s)
    ensures MappingAgrees(t)
  {
    hide FlFromBlocks, ObjSzToBlocks;
    forall f, b | f in t.chunks && f <= b < f + t.chunks[f].n
      ensures b in t.unmapped <==> t.chunks[f].core.unmapped
    {
      assert Covered(s.chunks, b);
      var g :| g in s.chunks && g <= b < g + s.chunks[g].n;
      assert g in t.chunks;
      if t.chunks[g] == s.chunks[g] {
        assert f == g;
      }
    }
  }

  /** A chunk is granted only wholly mapped, and every chunk keeps to its flag. */
  lemma NthMapping(s: Heap, env: Env, req: Request, i: nat, split: MaySplit)
    requires Ready(s, req, i) && MappingAgrees(s) && !Overruns(s, env, req, i, split)
    ensures MappingAgrees(Nth(s, env, req, i, split).0)
  {
    hide Filed, ShedOnly, MappingAgrees, Commit, Find, SameCover, ObjSzToBlocks, FlFromBlocks;
    FindKeeps(s, env, req, i, split, 0);
    var o := Find(s, env, req, i, split, 0);
    ShedMapping(s, o.s, env, req, i);
    if o.m != 0 {
      CommitMapping(o.s, req, o.h, o.m, i);
    }
  }

  /** Lists later than i are not touched. */
  lemma NthLaterLists(s: Heap, env: Env, req: Request, i: nat, split: MaySplit)
    requires Ready(s, req, i)
    ensures var t := Nth(s, env, req, i, split).0;
      |t.lists| == |s.lists| && forall j :: i < j < |s.lists| ==> t.lists[j] == s.lists[j]
  {
    hide Filed, Tiled, Commit, Find, SameCover, ObjSzToBlocks, FlFromBlocks, DropsWholly;
    FindKeeps(s, env, req, i, split, 0);
    var o := Find(s, env, req, i, split, 0);
    if o.m != 0 {
      CommitLaterLists(o.s, req, o.h, o.m, i);
    }
  }
}
