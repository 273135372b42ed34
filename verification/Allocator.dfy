/** The allocator's entry point: an exact pass, then a splitting pass up to a limit. */
module Allocator {
  import opened Words
  import opened FreeListIndex
  import opened Chunks
  import opened Allocation
  import opened Search

  // ---- The reserve for large allocations ----

  /** Bytes on lists n to the last. */
  function SuffixBytes(fb: seq<int>, n: nat): int
    decreases |fb| - n
  {
    if n >= |fb| then 0 else fb[n] + SuffixBytes(fb, n + 1)
  }

  /** The downward scan of `GC_enough_large_bytes_left` at list n, bytes counted so far. */
  function EnoughFrom(fb: seq<int>, n: nat, bytes: int, wanted: nat): (r: nat)
    requires n < |fb|
    ensures r <= n
  {
    if n == 0 || bytes + fb[n] >= wanted then n else EnoughFrom(fb, n - 1, bytes + fb[n], wanted)
  }

  /** The scan stops at the last list whose suffix covers what is wanted, or at 0. */
  lemma {:induction false} EnoughIsGreatest(fb: seq<int>, n: nat, allocd: int, wanted: nat)
    requires n < |fb|
    ensures var r := EnoughFrom(fb, n, allocd + SuffixBytes(fb, n + 1), wanted);
      && (r == 0 || allocd + SuffixBytes(fb, r) >= wanted)
      && forall m :: r < m <= n ==> allocd + SuffixBytes(fb, m) < wanted
  {
    if n > 0 && allocd + SuffixBytes(fb, n) < wanted {
      EnoughIsGreatest(fb, n - 1, allocd, wanted);
    }
  }

  ghost function BytesOn(c: map<nat, Chunk>, l: seq<nat>): (b: int) {
    if l == [] then 0 else (if l[0] in c then c[l[0]].n * HBLKSIZE else 0) + BytesOn(c, l[1..])
  }

  /** `GC_free_bytes`: the bytes on each list. */
  ghost function ListBytes(s: Heap): (fb: seq<int>)
    ensures |fb| == |s.lists|
    ensures forall i :: 0 <= i < |s.lists| ==> fb[i] == BytesOn(s.chunks, s.lists[i])
  {
    seq(|s.lists|, i requires 0 <= i < |s.lists| => BytesOn(s.chunks, s.lists[i]))
  }

  // ---- The split limit ----

  /** What the rest of the collector says about the state of the heap. */
  datatype Policy = Policy(
    useWholeHeap: bool,          // splitting is preferred to collecting
    finalizerBytesFreed: nat,
    heapsize: nat,
    maxLargeAllocd: nat,
    largeAllocd: nat,
    munmap: bool)

  datatype Limit = Limit(list: nat, split: MaySplit)

  function ChooseLimit(fb: seq<int>, p: Policy): (l: Limit)
    requires |fb| == N_HBLK_FLS + 1
    ensures l.list <= N_HBLK_FLS && l.split != NoSplit
  {
    if p.useWholeHeap then Limit(N_HBLK_FLS, MayBeSplit)
    else if p.finalizerBytesFreed > p.heapsize / 16 then Limit(0, MayBeSplit)
    else
      var n := EnoughFrom(fb, N_HBLK_FLS, p.largeAllocd, p.maxLargeAllocd);
      Limit(n, if p.munmap && n > 0 then AvoidSplitRemapped else MayBeSplit)
  }

  // ---- The two passes ----

  /** The walks over lists i to limit. */
  ghost function AllocFrom(s: Heap, env: Env, req: Request, i: nat, l: Limit): (r: (Heap, nat))
    requires Inv(s) && req.Valid() && l.list <= N_HBLK_FLS
    decreases l.list + 1 - i
  {
    if i > l.list then (s, 0)
    else
      NthKeeps(s, env, req, i, l.split);
      var (t, r) := Nth(s, env, req, i, l.split);
      if r != 0 then (t, r) else AllocFrom(t, env, req, i + 1, l)
  }

  /** First list of the splitting pass: a uniform list was exhausted by the exact pass. */
  function SecondStart(req: Request): nat {
    var i := FlFromBlocks(req.Need());
    if i < UNIQUE_THRESHOLD then i + 1 else i
  }

  /** `GC_allochblk`. */
  ghost function Allochblk(s: Heap, env: Env, req: Request, p: Policy): (r: (Heap, nat))
    requires Inv(s)
  {
    if NegativeSigned(req.Need() * HBLKSIZE) then (s, 0)
    else
      TooLarge(req);
      NthKeeps(s, env, req, FlFromBlocks(req.Need()), NoSplit);
      var (t, r) := Nth(s, env, req, FlFromBlocks(req.Need()), NoSplit);
      if r != 0 then (t, r)
      else AllocFrom(t, env, req, SecondStart(req), ChooseLimit(ListBytes(t), p))
  }

  /** The sign test rejects exactly the requests of half the address space or more. */
  lemma TooLarge(req: Request)
    ensures NegativeSigned(req.Need() * HBLKSIZE) <==> req.Need() >= HALF_SPACE
  {
    hide ObjSzToBlocks;
  }

  // ---- What an allocation does ----

  /** One of the walks over lists i to limit overruns its chunk. */
  ghost predicate FromOverruns(s: Heap, env: Env, req: Request, i: nat, l: Limit)
    requires Inv(s) && req.Valid() && l.list <= N_HBLK_FLS
    decreases l.list + 1 - i
  {
    i <= l.list &&
    (Overruns(s, env, req, i, l.split) ||
     (Nth(s, env, req, i, l.split).1 == 0 &&
      (NthKeeps(s, env, req, i, l.split); FromOverruns(Nth(s, env, req, i, l.split).0, env, req, i + 1, l))))
  }

  lemma {:induction false} AllocFromKeeps(s: Heap, env: Env, req: Request, i: nat, l: Limit)
    requires Inv(s) && req.Valid() && l.list <= N_HBLK_FLS
    ensures var (t, r) := AllocFrom(s, env, req, i, l);
      if FromOverruns(s, env, req, i, l) then r != 0 && req.Need() == 0 && Overwritten(t, r) && !Inv(t)
      else
        && Grants(s, t, if r == 0 then 0 else req.Need() * HBLKSIZE)
        && (MappingAgrees(s) ==> MappingAgrees(t))
        && Answered(s, t, env, req, r)
    decreases l.list + 1 - i
  {
    hide InvExcept, Nth, Grants, MappingAgrees, Answered, OnlyHopelessLost, Overruns, ObjSzToBlocks;
    NothingDone(s, env, req);
    if i <= l.list {
      NthKeeps(s, env, req, i, l.split);
      if !Overruns(s, env, req, i, l.split) {
        NthGranted(s, env, req, i, l.split);
        if MappingAgrees(s) {
          NthMapping(s, env, req, i, l.split);
        }
        var (t, r) := Nth(s, env, req, i, l.split);
        if r == 0 {
          GrantsInv(s, t, 0);
          AllocFromKeeps(t, env, req, i + 1, l);
          if !FromOverruns(t, env, req, i + 1, l) {
            var (u, r') := AllocFrom(t, env, req, i + 1, l);
            GrantsCompose(s, t, u, if r' == 0 then 0 else req.Need() * HBLKSIZE);
            LostCompose(s, t, u, env, req, r');
          }
        }
      }
    }
  }

  lemma GrantsInv(s: Heap, t: Heap, bytes: nat)
    requires Grants(s, t, bytes)
    ensures Inv(t)
  {
  }

  lemma NothingDone(s: Heap, env: Env, req: Request)
    requires Inv(s)
    ensures Grants(s, s, 0) && Answered(s, s, env, req, 0)
  {
  }

  lemma GrantsCompose(s: Heap, t: Heap, u: Heap, bytes: nat)
    requires Grants(s, t, 0) && Grants(t, u, bytes)
    ensures Grants(s, u, bytes)
  {
    hide InvExcept, SameCover, Weigh;
    CoverTransitive(s.chunks, t.chunks, u.chunks);
  }

  lemma LostCompose(s: Heap, t: Heap, u: Heap, env: Env, req: Request, r: nat)
    requires Answered(s, t, env, req, 0) && Answered(t, u, env, req, r)
    ensures Answered(s, u, env, req, r)
  {
    hide HasRoom, ObjSzToBlocks, Carved, LeftFree;
    if r != 0 && req.Need() > 0 {
      var h :| RightPlace(t, env, req, h, r) &&
               (u.dropped == t.dropped ==> Carved(t.chunks, u.chunks, h, r, req.Need()));
      assert RightPlace(s, env, req, h, r);
    } else if r != 0 {
      var h :| RightPlace(t, env, req, h, r) && (u.dropped == t.dropped ==> LeftFree(t.chunks, u.chunks, h, r));
      assert RightPlace(s, env, req, h, r);
    }
  }

  /** The call overruns a chunk: every block of the one it chooses is black-listed for a request of no
      blocks, and the block after it is clear. */
  ghost predicate AllocOverruns(s: Heap, env: Env, req: Request, p: Policy)
    requires Inv(s)
  {
    req.Valid() && var i := FlFromBlocks(req.Need());
    (Overruns(s, env, req, i, NoSplit) ||
     (Nth(s, env, req, i, NoSplit).1 == 0 &&
      (NthKeeps(s, env, req, i, NoSplit);
       FromOverruns(Nth(s, env, req, i, NoSplit).0, env, req, SecondStart(req), LimitInForce(s, env, req, p)))))
  }

  /** The split limit that the call arrives at after its exact pass. */
  ghost function LimitInForce(s: Heap, env: Env, req: Request, p: Policy): (l: Limit)
    requires Inv(s) && req.Valid()
    ensures l.list <= N_HBLK_FLS && l.split != NoSplit
  {
    ListsKept(s, env, req, FlFromBlocks(req.Need()), NoSplit);
    ChooseLimit(ListBytes(Nth(s, env, req, FlFromBlocks(req.Need()), NoSplit).0), p)
  }

  lemma ListsKept(s: Heap, env: Env, req: Request, i: nat, split: MaySplit)
    requires Ready(s, req, i)
    ensures |Nth(s, env, req, i, split).0.lists| == N_HBLK_FLS + 1
  {
    hide Filed, Tiled, Tagged, Find, Commit;
    NthLaterLists(s, env, req, i, split);
  }

  /** A call that overruns breaks the invariant, and every other call, whatever it asks for, keeps it.
      Every other call keeps flags and mapping in agreement, moves exactly its own and the dropped
      bytes, and grants a well-placed block or loses nothing the request could have used. */
  lemma AllocKeeps(s: Heap, env: Env, req: Request, p: Policy)
    requires Inv(s)
    ensures var (t, r) := Allochblk(s, env, req, p);
      if AllocOverruns(s, env, req, p) then r != 0 && req.Need() == 0 && Overwritten(t, r) && !Inv(t)
      else
        && Grants(s, t, if r == 0 then 0 else req.Need() * HBLKSIZE)
        && (MappingAgrees(s) ==> MappingAgrees(t))
        && Answered(s, t, env, req, r)
  {
    hide InvExcept, Nth, Grants, MappingAgrees, Answered, OnlyHopelessLost, Overruns, ObjSzToBlocks;
    hide AllocFrom, FromOverruns, FlFromBlocks;
    NothingDone(s, env, req);
    TooLarge(req);
    if req.Valid() {
      var i := FlFromBlocks(req.Need());
      NthKeeps(s, env, req, i, NoSplit);
      if !Overruns(s, env, req, i, NoSplit) {
        NthGranted(s, env, req, i, NoSplit);
        if MappingAgrees(s) {
          NthMapping(s, env, req, i, NoSplit);
        }
        var (t, r) := Nth(s, env, req, i, NoSplit);
        if r == 0 {
          GrantsInv(s, t, 0);
          var l := LimitInForce(s, env, req, p);
          AllocFromKeeps(t, env, req, SecondStart(req), l);
          if !FromOverruns(t, env, req, SecondStart(req), l) {
            var (u, r') := AllocFrom(t, env, req, SecondStart(req), l);
            GrantsCompose(s, t, u, if r' == 0 then 0 else req.Need() * HBLKSIZE);
            LostCompose(s, t, u, env, req, r');
          }
        }
      }
    }
  }

  /** The counter follows the free chunks through every allocation that does not overrun. */
  lemma AllocBalances(s: Heap, env: Env, req: Request, p: Policy)
    requires Inv(s) && Balanced(s) && !AllocOverruns(s, env, req, p)
    ensures Balanced(Allochblk(s, env, req, p).0)
  {
    hide InvExcept, Allochblk, AllocOverruns, ObjSzToBlocks;
    AllocKeeps(s, env, req, p);
  }

  // ---- Requests whose rounding wraps ----

  lemma {:induction false} FromOverrunMeans(s: Heap, env: Env, req: Request, i: nat, l: Limit) returns (h: nat)
    requires Inv(s) && req.Valid() && l.list <= N_HBLK_FLS && FromOverruns(s, env, req, i, l)
    ensures req.Need() == 0 && req.AvoidsBlackList()
    ensures IsFree(s, h) && AllocFrom(s, env, req, i, l).1 == h + s.chunks[h].n
    ensures forall b :: h <= b < h + s.chunks[h].n ==> env.bl.Listed(b, 1)
    ensures !env.bl.Listed(h + s.chunks[h].n, 1)
    decreases l.list + 1 - i
  {
    hide InvExcept, Nth, Overruns, ObjSzToBlocks, Grants, FlFromBlocks, HasRoom;
    NthKeeps(s, env, req, i, l.split);
    if Overruns(s, env, req, i, l.split) {
      h := OverrunMeans(s, env, req, i, l.split);
    } else {
      NthGranted(s, env, req, i, l.split);
      GrantsInv(s, Nth(s, env, req, i, l.split).0, 0);
      h := FromOverrunMeans(Nth(s, env, req, i, l.split).0, env, req, i + 1, l);
    }
  }

  /** Only a request of no blocks that avoids the black list overruns, and only past a free chunk that
      is wholly black-listed and followed by a clear block. */
  lemma AllocOverrunMeans(s: Heap, env: Env, req: Request, p: Policy) returns (h: nat)
    requires Inv(s) && AllocOverruns(s, env, req, p)
    ensures req.Need() == 0 && req.AvoidsBlackList()
    ensures IsFree(s, h) && Allochblk(s, env, req, p).1 == h + s.chunks[h].n
    ensures forall b :: h <= b < h + s.chunks[h].n ==> env.bl.Listed(b, 1)
    ensures !env.bl.Listed(h + s.chunks[h].n, 1)
  {
    hide InvExcept, Nth, Overruns, ObjSzToBlocks, Grants, FlFromBlocks, HasRoom, FromOverruns, AllocFrom;
    TooLarge(req);
    var i := FlFromBlocks(req.Need());
    NthKeeps(s, env, req, i, NoSplit);
    if Overruns(s, env, req, i, NoSplit) {
      h := OverrunMeans(s, env, req, i, NoSplit);
    } else {
      NthGranted(s, env, req, i, NoSplit);
      GrantsInv(s, Nth(s, env, req, i, NoSplit).0, 0);
      h := FromOverrunMeans(Nth(s, env, req, i, NoSplit).0, env, req, SecondStart(req), LimitInForce(s, env, req, p));
    }
  }

  /** Where a request that avoids the black list is placed: where the chosen chunk has a clear start, no
      exposed block is marked for stacks and the first block not for the heap; else the request punts. */
  lemma PlacedClear(s: Heap, env: Env, req: Request, p: Policy) returns (h: nat)
    requires Inv(s) && req.AvoidsBlackList() && Allochblk(s, env, req, p).1 != 0 && !AllocOverruns(s, env, req, p)
    ensures var r := Allochblk(s, env, req, p).1;
      && IsFree(s, h) && h <= r && r + req.Need() <= h + s.chunks[h].n
      && (if NoClearStart(env, req, h, s.chunks[h].n) then r == h && Punts(env, req, s.chunks[h].n)
          else !env.bl.Normal(r) && forall c :: r <= c < r + req.Exposed() ==> !env.bl.Stack(c))
  {
    hide InvExcept, Allochblk, AllocOverruns, ObjSzToBlocks, Grants, MappingAgrees, Carved, LeftFree;
    AllocKeeps(s, env, req, p);
    h :| RightPlace(s, env, req, h, Allochblk(s, env, req, p).1);
  }

  lemma NthDropsNothing(s: Heap, env: Env, req: Request, i: nat, split: MaySplit)
    requires Ready(s, req, i) && req.Need() != 1 && !Overruns(s, env, req, i, split)
    ensures Nth(s, env, req, i, split).0.dropped == s.dropped
  {
    hide InvExcept, Find, Commit, ObjSzToBlocks, FlFromBlocks, RightPlace, ShedOnly, Conserves, Weigh;
    FindKeeps(s, env, req, i, split, 0);
    FindDropsNothing(s, env, req, i, split, 0);
    var o := Find(s, env, req, i, split, 0);
    if o.m != 0 {
      CommitWeighs(s, req, o.h, o.m, i);
    }
  }

  lemma {:induction false} AllocFromDropsNothing(s: Heap, env: Env, req: Request, i: nat, l: Limit)
    requires Inv(s) && req.Valid() && l.list <= N_HBLK_FLS && req.Need() != 1 && !FromOverruns(s, env, req, i, l)
    ensures AllocFrom(s, env, req, i, l).0.dropped == s.dropped
    decreases l.list + 1 - i
  {
    hide InvExcept, Nth, Overruns, Grants, ObjSzToBlocks;
    if i <= l.list {
      NthKeeps(s, env, req, i, l.split);
      NthDropsNothing(s, env, req, i, l.split);
      var (t, r) := Nth(s, env, req, i, l.split);
      if r == 0 {
        GrantsInv(s, t, 0);
        AllocFromDropsNothing(t, env, req, i + 1, l);
      }
    }
  }

  /** Only a request of one block makes the allocator drop anything. */
  lemma AllocDropsNothing(s: Heap, env: Env, req: Request, p: Policy)
    requires Inv(s) && req.Need() != 1 && !AllocOverruns(s, env, req, p)
    ensures Allochblk(s, env, req, p).0.dropped == s.dropped
  {
    hide InvExcept, Nth, Overruns, Grants, ObjSzToBlocks, FromOverruns, AllocFrom, FlFromBlocks;
    TooLarge(req);
    if req.Valid() {
      var i := FlFromBlocks(req.Need());
      NthKeeps(s, env, req, i, NoSplit);
      NthDropsNothing(s, env, req, i, NoSplit);
      var (t, r) := Nth(s, env, req, i, NoSplit);
      if r == 0 {
        GrantsInv(s, t, 0);
        AllocFromDropsNothing(t, env, req, SecondStart(req), LimitInForce(s, env, req, p));
      }
    }
  }

  /** Block r is a used chunk with room for the request's bytes. */
  predicate Serves(t: Heap, req: Request, r: nat) {
    r in t.chunks && t.chunks[r].use.Used? && 0 < t.chunks[r].n && req.sz <= t.chunks[r].n * HBLKSIZE
  }

  /** A block that the allocator returns serves the request if and only if the request is not empty
      and its size does not wrap when rounded up to blocks. */
  lemma GrantServes(s: Heap, env: Env, req: Request, p: Policy)
    requires Inv(s) && req.sz < WORD && Allochblk(s, env, req, p).1 != 0
    ensures var (t, r) := Allochblk(s, env, req, p);
      Serves(t, req, r) <==> req.sz != 0 && req.sz <= WORD - HBLKSIZE
  {
    hide InvExcept, Allochblk, AllocOverruns, ObjSzToBlocks, Grants, MappingAgrees, HasRoom;
    ObjSzToBlocksIsCeiling(req.sz);
    AllocKeeps(s, env, req, p);
  }

  // ---- Completeness ----

  lemma {:induction false} AllocFromComplete(s: Heap, env: Env, req: Request, i: nat, l: Limit, h: nat)
    requires Inv(s) && req.Valid() && l.list <= N_HBLK_FLS && l.split != NoSplit
    requires AllocFrom(s, env, req, i, l).1 == 0
    requires IsFree(s, h) && i <= FlFromBlocks(s.chunks[h].n) <= l.list
    ensures HasRoom(env, req, h, s.chunks[h].n) ==> Spared(s.chunks[h], env, req, l.split, h)
    decreases l.list + 1 - i
  {
    hide InvExcept, Nth, HasRoom, Spared, SameCover, ObjSzToBlocks, FlFromBlocks;
    NthKeeps(s, env, req, i, l.split);
    NthGranted(s, env, req, i, l.split);
    var (t, r) := Nth(s, env, req, i, l.split);
    if FlFromBlocks(s.chunks[h].n) == i {
      NthComplete(s, env, req, i, l.split, h);
    } else if HasRoom(env, req, h, s.chunks[h].n) {
      AllocFromComplete(t, env, req, i + 1, l, h);
    }
  }

  /** Free chunk k at h is not for this call to use: it is no exact fit, and it lies beyond the
      split limit or is spared from being remapped only to be split. */
  ghost predicate OutOfReach(k: Chunk, env: Env, req: Request, l: Limit, h: nat) {
    k.n > req.Need() && (FlFromBlocks(k.n) > l.list || Spared(k, env, req, l.split, h))
  }

  lemma RoomIsEnough(env: Env, req: Request, h: nat, n: nat)
    requires HasRoom(env, req, h, n)
    ensures n >= req.Need()
  {
  }

  lemma NeverSparedExact(k: Chunk, env: Env, req: Request, h: nat)
    ensures !Spared(k, env, req, NoSplit, h)
  {
  }

  /** Whenever the allocator fails, every free chunk with room is out of its reach. */
  lemma FailureReasons(s: Heap, env: Env, req: Request, p: Policy, h: nat)
    requires Inv(s) && req.Valid() && Allochblk(s, env, req, p).1 == 0
    requires IsFree(s, h) && HasRoom(env, req, h, s.chunks[h].n)
    ensures OutOfReach(s.chunks[h], env, req, LimitInForce(s, env, req, p), h)
  {
    hide InvExcept, Nth, HasRoom, NoClearStart, Spared, SameCover, ObjSzToBlocks, FlFromBlocks, AllocFrom;
    TooLarge(req);
    RoomIsEnough(env, req, h, s.chunks[h].n);
    var i, n := FlFromBlocks(req.Need()), s.chunks[h].n;
    LargerChunksAreLater(req.Need(), n);
    NthKeeps(s, env, req, i, NoSplit);
    NthGranted(s, env, req, i, NoSplit);
    if FlFromBlocks(n) == i {
      NthComplete(s, env, req, i, NoSplit, h);
      NeverSparedExact(s.chunks[h], env, req, h);
    }
    var t, l := Nth(s, env, req, i, NoSplit).0, LimitInForce(s, env, req, p);
    if FlFromBlocks(n) <= l.list {
      AllocFromComplete(t, env, req, SecondStart(req), l, h);
    }
  }

  /** A second pass that grants a block found it in a chunk within the limit that had room and was not
      to be spared, while every chunk with room on an earlier list of the pass was. */
  lemma {:induction false} AllocFromTakes(s: Heap, env: Env, req: Request, i: nat, l: Limit) returns (h: nat)
    requires Inv(s) && req.Valid() && l.list <= N_HBLK_FLS && AllocFrom(s, env, req, i, l).1 != 0
    ensures IsFree(s, h) && HasRoom(env, req, h, s.chunks[h].n) && i <= FlFromBlocks(s.chunks[h].n) <= l.list
    ensures RightPlace(s, env, req, h, AllocFrom(s, env, req, i, l).1)
    ensures !Spared(s.chunks[h], env, req, l.split, h)
    ensures l.split != NoSplit ==>
              forall g :: IsFree(s, g) && HasRoom(env, req, g, s.chunks[g].n)
                          && i <= FlFromBlocks(s.chunks[g].n) < FlFromBlocks(s.chunks[h].n) ==>
                Spared(s.chunks[g], env, req, l.split, g)
    decreases l.list + 1 - i
  {
    hide InvExcept, Nth, HasRoom, Spared, SameCover, ObjSzToBlocks, FlFromBlocks, NoClearStart, Punts;
    NthKeeps(s, env, req, i, l.split);
    var (t, r) := Nth(s, env, req, i, l.split);
    if r != 0 {
      h := NthTakes(s, env, req, i, l.split);
    } else {
      NthGranted(s, env, req, i, l.split);
      h := AllocFromTakes(t, env, req, i + 1, l);
      if l.split != NoSplit {
        forall g | IsFree(s, g) && HasRoom(env, req, g, s.chunks[g].n)
                   && i <= FlFromBlocks(s.chunks[g].n) < FlFromBlocks(s.chunks[h].n)
          ensures Spared(s.chunks[g], env, req, l.split, g)
        {
          if FlFromBlocks(s.chunks[g].n) == i {
            NthComplete(s, env, req, i, l.split, g);
          }
        }
      }
    }
  }

  /** A chunk of exactly the size asked for, with room for the request. */
  ghost predicate ExactFit(s: Heap, env: Env, req: Request, g: nat) {
    IsFree(s, g) && s.chunks[g].n == req.Need() && HasRoom(env, req, g, s.chunks[g].n)
  }

  /** Chunk h is the allocator's choice: an exact fit if there is one at all; else one within reach, on the
      earliest list that has a chunk with room that is not spared. */
  ghost predicate Preferred(s: Heap, env: Env, req: Request, l: Limit, h: nat)
    requires IsFree(s, h)
  {
    && ((exists g :: ExactFit(s, env, req, g)) ==> s.chunks[h].n == req.Need())
    && (s.chunks[h].n != req.Need() ==>
          && FlFromBlocks(s.chunks[h].n) <= l.list && !Spared(s.chunks[h], env, req, l.split, h)
          && forall g :: IsFree(s, g) && HasRoom(env, req, g, s.chunks[g].n)
                         && FlFromBlocks(s.chunks[g].n) < FlFromBlocks(s.chunks[h].n) ==>
               Spared(s.chunks[g], env, req, l.split, g))
  }

  /** A call that grants a block grants it where it belongs in the preferred chunk. */
  lemma GrantTakes(s: Heap, env: Env, req: Request, p: Policy) returns (h: nat)
    requires Inv(s) && req.Valid() && Allochblk(s, env, req, p).1 != 0
    ensures IsFree(s, h) && HasRoom(env, req, h, s.chunks[h].n)
    ensures RightPlace(s, env, req, h, Allochblk(s, env, req, p).1)
    ensures Preferred(s, env, req, LimitInForce(s, env, req, p), h)
    ensures !OutOfReach(s.chunks[h], env, req, LimitInForce(s, env, req, p), h)
  {
    hide InvExcept, Nth, HasRoom, Spared, SameCover, ObjSzToBlocks, FlFromBlocks, AllocFrom, NoClearStart, Punts;
    TooLarge(req);
    var i := FlFromBlocks(req.Need());
    NthKeeps(s, env, req, i, NoSplit);
    var (t, r) := Nth(s, env, req, i, NoSplit);
    if r != 0 {
      h := NthTakes(s, env, req, i, NoSplit);
    } else {
      NthGranted(s, env, req, i, NoSplit);
      h := AllocFromTakes(t, env, req, SecondStart(req), LimitInForce(s, env, req, p));
      EarlierLists(s, t, env, req, LimitInForce(s, env, req, p), h);
    }
  }

  lemma EarlierLists(s: Heap, t: Heap, env: Env, req: Request, l: Limit, h: nat)
    requires Inv(s) && req.Valid() && IsFree(s, h) && l.split != NoSplit
    requires var i := FlFromBlocks(req.Need());
      Nth(s, env, req, i, NoSplit) == (t, 0) && OnlyHopelessLost(s, t, env, req)
    requires FlFromBlocks(s.chunks[h].n) <= l.list && !Spared(s.chunks[h], env, req, l.split, h)
    requires forall g :: IsFree(t, g) && HasRoom(env, req, g, t.chunks[g].n)
                         && SecondStart(req) <= FlFromBlocks(t.chunks[g].n) < FlFromBlocks(s.chunks[h].n) ==>
               Spared(t.chunks[g], env, req, l.split, g)
    ensures Preferred(s, env, req, l, h)
  {
    hide InvExcept, Nth, HasRoom, Spared, ObjSzToBlocks, FlFromBlocks, OnlyHopelessLost;
    forall g | IsFree(s, g) && HasRoom(env, req, g, s.chunks[g].n)
      ensures s.chunks[g].n != req.Need() && SecondStart(req) <= FlFromBlocks(s.chunks[g].n)
    {
      RoomIsEnough(env, req, g, s.chunks[g].n);
      LargerChunksAreLater(req.Need(), s.chunks[g].n);
      if FlFromBlocks(s.chunks[g].n) == FlFromBlocks(req.Need()) {
        NthComplete(s, env, req, FlFromBlocks(req.Need()), NoSplit, g);
        NeverSparedExact(s.chunks[g], env, req, g);
      }
      SameIndex(s.chunks[g].n, req.Need());
    }
    forall g | IsFree(s, g) && HasRoom(env, req, g, s.chunks[g].n)
               && FlFromBlocks(s.chunks[g].n) < FlFromBlocks(s.chunks[h].n)
      ensures Spared(s.chunks[g], env, req, l.split, g)
    {
      StaysWithRoom(s, t, env, req, g);
    }
  }

  lemma SameIndex(m: nat, n: nat)
    ensures m == n ==> FlFromBlocks(m) == FlFromBlocks(n)
  {
  }

  lemma StaysWithRoom(s: Heap, t: Heap, env: Env, req: Request, g: nat)
    requires OnlyHopelessLost(s, t, env, req) && IsFree(s, g) && HasRoom(env, req, g, s.chunks[g].n)
    ensures IsFree(t, g) && t.chunks[g] == s.chunks[g]
  {
    hide HasRoom;
  }

  /** Under every policy the result is null if and only if each free chunk with room is out of reach. */
  lemma AllocComplete(s: Heap, env: Env, req: Request, p: Policy)
    requires Inv(s) && req.Valid()
    ensures Allochblk(s, env, req, p).1 == 0 <==>
              forall h :: IsFree(s, h) && HasRoom(env, req, h, s.chunks[h].n) ==>
                OutOfReach(s.chunks[h], env, req, LimitInForce(s, env, req, p), h)
  {
    hide InvExcept, Allochblk, LimitInForce, HasRoom, OutOfReach, ObjSzToBlocks;
    if Allochblk(s, env, req, p).1 == 0 {
      forall h | IsFree(s, h) && HasRoom(env, req, h, s.chunks[h].n)
        ensures OutOfReach(s.chunks[h], env, req, LimitInForce(s, env, req, p), h)
      {
        FailureReasons(s, env, req, p, h);
      }
    } else {
      var h := GrantTakes(s, env, req, p);
    }
  }

  // ---- Policies ----

  lemma LimitIs(s: Heap, env: Env, req: Request, p: Policy)
    requires Inv(s) && req.Valid()
    ensures var fb := ListBytes(Nth(s, env, req, FlFromBlocks(req.Need()), NoSplit).0);
      |fb| == 61 && LimitInForce(s, env, req, p) == ChooseLimit(fb, p)
  {
    hide InvExcept, Nth;
    ListsKept(s, env, req, FlFromBlocks(req.Need()), NoSplit);
  }

  /** Where splitting is preferred to collecting, null means that no free chunk has room: no admissible
      start anywhere, and none to punt on. So it does whenever the last list is open to ordinary
      splitting. */
  lemma WholeHeapComplete(s: Heap, env: Env, req: Request, p: Policy)
    requires Inv(s) && req.Valid()
    requires p.useWholeHeap || LimitInForce(s, env, req, p) == Limit(60, MayBeSplit)
    ensures Allochblk(s, env, req, p).1 == 0 <==>
              forall h :: IsFree(s, h) ==> !HasRoom(env, req, h, s.chunks[h].n)
  {
    hide InvExcept, Allochblk, LimitInForce, HasRoom, ObjSzToBlocks;
    LimitIs(s, env, req, p);
    AllocComplete(s, env, req, p);
  }

  /** Where finalizers have freed more than a sixteenth of the heap and splitting is not preferred, the
      allocator takes exact fits only. */
  lemma FinalizersComplete(s: Heap, env: Env, req: Request, p: Policy)
    requires Inv(s) && req.Valid() && !p.useWholeHeap && p.finalizerBytesFreed > p.heapsize / 16
    ensures var r := Allochblk(s, env, req, p).1;
      && (r != 0 <==> exists g :: ExactFit(s, env, req, g))
      && (r != 0 ==> IsFree(s, r) && s.chunks[r].n == req.Need())
  {
    hide InvExcept, Allochblk, LimitInForce, HasRoom, ObjSzToBlocks, FlFromBlocks, Spared, NoClearStart, Punts;
    LimitIs(s, env, req, p);
    AllocComplete(s, env, req, p);
    forall h | IsFree(s, h)
      ensures FlFromBlocks(s.chunks[h].n) > 0
    {
      ChunkFacts(s, h, 0, 0);
      NotOnFirstList(s.chunks[h].n);
    }
    forall h | IsFree(s, h) && HasRoom(env, req, h, s.chunks[h].n)
      ensures s.chunks[h].n >= req.Need()
    {
      RoomIsEnough(env, req, h, s.chunks[h].n);
    }
    if Allochblk(s, env, req, p).1 != 0 {
      var h := GrantTakes(s, env, req, p);
      assert ExactFit(s, env, req, h);
    } else {
      forall g
        ensures !ExactFit(s, env, req, g)
      {
      }
    }
  }

  lemma NotOnFirstList(n: nat)
    ensures FlFromBlocks(n) > 0 <==> n > 0
  {
  }

  /** List m is the last whose suffix, with what is allocated already, covers the reserve; 0 if none is. */
  ghost predicate Reserve(fb: seq<int>, p: Policy, m: nat) {
    && m <= 60 && (m == 0 || p.largeAllocd + SuffixBytes(fb, m) >= p.maxLargeAllocd)
    && forall j :: m < j <= 60 ==> p.largeAllocd + SuffixBytes(fb, j) < p.maxLargeAllocd
  }

  /** Otherwise chunks are split up to the list of the reserve, counted after the exact pass, and
      reluctantly exactly if memory is unmapped and that list is not the first. */
  lemma ReserveComplete(s: Heap, env: Env, req: Request, p: Policy, m: nat)
    requires Inv(s) && req.Valid() && !p.useWholeHeap && p.finalizerBytesFreed <= p.heapsize / 16
    requires Reserve(ListBytes(Nth(s, env, req, FlFromBlocks(req.Need()), NoSplit).0), p, m)
    ensures Allochblk(s, env, req, p).1 == 0 <==>
              forall h :: IsFree(s, h) && HasRoom(env, req, h, s.chunks[h].n) ==>
                && s.chunks[h].n > req.Need()
                && (FlFromBlocks(s.chunks[h].n) > m ||
                    Spared(s.chunks[h], env, req, if p.munmap && m > 0 then AvoidSplitRemapped else MayBeSplit, h))
  {
    hide InvExcept, Allochblk, LimitInForce, HasRoom, ObjSzToBlocks, FlFromBlocks, Spared, Nth, SuffixBytes, ListBytes;
    LimitIs(s, env, req, p);
    ReserveIs(ListBytes(Nth(s, env, req, FlFromBlocks(req.Need()), NoSplit).0), p, m);
    AllocComplete(s, env, req, p);
  }

  lemma ReserveIs(fb: seq<int>, p: Policy, m: nat)
    requires |fb| == 61 && Reserve(fb, p, m)
    ensures EnoughFrom(fb, 60, p.largeAllocd, p.maxLargeAllocd) == m
  {
    assert SuffixBytes(fb, 61) == 0;
    EnoughIsGreatest(fb, 60, p.largeAllocd, p.maxLargeAllocd);
  }

  // ---- Candidates for dropping ----

  lemma NthCounts(s: Heap, env: Env, req: Request, i: nat, split: MaySplit)
    requires Ready(s, req, i) && req.Need() > 0
    ensures Nth(s, env, req, i, split).0.drops == s.drops + Met(s, env, req, i, split, 0)
  {
    hide InvExcept, Find, Commit, ObjSzToBlocks, FlFromBlocks, RightPlace, ShedOnly, Conserves, Weigh, Met;
    FindKeeps(s, env, req, i, split, 0);
    EveryFourthDropped(s, env, req, i, split, 0);
    var o := Find(s, env, req, i, split, 0);
    if o.m != 0 {
      CommitWeighs(o.s, req, o.h, o.m, i);
    }
  }

  /** Candidates met on lists i to limit. */
  ghost function FromMet(s: Heap, env: Env, req: Request, i: nat, l: Limit): nat
    requires Inv(s) && req.Valid() && l.list <= N_HBLK_FLS && req.Need() > 0
    decreases l.list + 1 - i
  {
    if i > l.list then 0
    else
      NthKeeps(s, env, req, i, l.split);
      var (t, r) := Nth(s, env, req, i, l.split);
      Met(s, env, req, i, l.split, 0) + if r != 0 then 0 else FromMet(t, env, req, i + 1, l)
  }

  lemma {:induction false} FromCounts(s: Heap, env: Env, req: Request, i: nat, l: Limit)
    requires Inv(s) && req.Valid() && l.list <= N_HBLK_FLS && req.Need() > 0
    ensures AllocFrom(s, env, req, i, l).0.drops == s.drops + FromMet(s, env, req, i, l)
    decreases l.list + 1 - i
  {
    hide InvExcept, Nth, Met, Grants, ObjSzToBlocks;
    if i <= l.list {
      NthKeeps(s, env, req, i, l.split);
      NthCounts(s, env, req, i, l.split);
      var (t, r) := Nth(s, env, req, i, l.split);
      if r == 0 {
        GrantsInv(s, t, 0);
        FromCounts(t, env, req, i + 1, l);
      }
    }
  }

  /** A call for one block counts each candidate once: those on list 1, then, if the exact pass fails,
      those on the lists from 2 to the limit. */
  lemma AllocCounts(s: Heap, env: Env, req: Request, p: Policy)
    requires Inv(s) && req.Need() == 1
    ensures var t := Nth(s, env, req, 1, NoSplit).0;
      && Inv(t)
      && Allochblk(s, env, req, p).0.drops ==
           s.drops + Met(s, env, req, 1, NoSplit, 0)
           + if Nth(s, env, req, 1, NoSplit).1 != 0 then 0 else FromMet(t, env, req, 2, LimitInForce(s, env, req, p))
  {
    hide InvExcept, Nth, Met, FromMet, AllocFrom, Grants, ObjSzToBlocks;
    TooLarge(req);
    NthKeeps(s, env, req, 1, NoSplit);
    NthCounts(s, env, req, 1, NoSplit);
    var (t, r) := Nth(s, env, req, 1, NoSplit);
    GrantsInv(s, t, if r == 0 then 0 else HBLKSIZE);
    if r == 0 {
      FromCounts(t, env, req, 2, LimitInForce(s, env, req, p));
    }
  }

  // ---- The split limit in force ----

  lemma {:induction false} AllocFromLaterLists(s: Heap, env: Env, req: Request, i: nat, l: Limit)
    requires Inv(s) && req.Valid() && l.list <= N_HBLK_FLS
    ensures var t := AllocFrom(s, env, req, i, l).0;
      |t.lists| == |s.lists| && forall j :: l.list < j < |s.lists| ==> t.lists[j] == s.lists[j]
    decreases l.list + 1 - i
  {
    hide InvExcept, Nth, ObjSzToBlocks;
    if i <= l.list {
      NthKeeps(s, env, req, i, l.split);
      NthLaterLists(s, env, req, i, l.split);
      var (t, r) := Nth(s, env, req, i, l.split);
      if r == 0 {
        GrantsInv(s, t, 0);
        AllocFromLaterLists(t, env, req, i + 1, l);
      }
    }
  }

  /** Lists above both the request's own list and the split limit are left alone. */
  lemma ReserveUntouched(s: Heap, env: Env, req: Request, p: Policy, j: nat)
    requires Inv(s) && req.Valid()
    requires LimitInForce(s, env, req, p).list < j <= N_HBLK_FLS && FlFromBlocks(req.Need()) < j
    ensures var t := Allochblk(s, env, req, p).0;
      |t.lists| == |s.lists| && j < |s.lists| && t.lists[j] == s.lists[j]
  {
    TooLarge(req);
    var i := FlFromBlocks(req.Need());
    assert |s.lists| == N_HBLK_FLS + 1;
    hide InvExcept, Nth, ObjSzToBlocks, FlFromBlocks;
    NthKeeps(s, env, req, i, NoSplit);
    NthLaterLists(s, env, req, i, NoSplit);
    var (t, r) := Nth(s, env, req, i, NoSplit);
    if r == 0 {
      GrantsInv(s, t, 0);
      AllocFromLaterLists(t, env, req, SecondStart(req), ChooseLimit(ListBytes(t), p));
    }
  }
}
