/** The mutable heap: header index, list heads and counters, and the operations on them. */
module HeapBlocks {
  import opened Words
  import opened FreeListIndex
  import opened Sequences
  import opened Chunks
  import opened BlackList
  import opened Freeing
  import opened Allocation
  import opened Search
  import opened Allocator
  import opened HeaderIndex
  import opened Totals
  import opened Filing
  import opened IndexChanges
  import opened Unmapping
  import opened Merging

  datatype FreeOutcome = Freed | TooLargeToFree | DuplicateFree | NothingToFree

  class Blocks {
    var hdrs: Index                // the header index, by block number
    const freelist: array<nat>     // GC_hblkfreelist
    const freeBytes: array<int>    // GC_free_bytes
    var unmappedBlocks: set<nat>   // what the operating system has taken back
    var largeFreeBytes: int
    var bytesDropped: nat
    var dropCount: nat
    ghost var abs: Heap            // the heap that all this represents

    /** The fields represent abs, with t in place of the header index. */
    ghost predicate RepWith(t: Index)
      reads this, freelist, freeBytes
    {
      && freelist.Length == freeBytes.Length == N_HBLK_FLS + 1 && (freelist as object) != freeBytes
      && Represents(t, freelist[..], freeBytes[..], abs)
      && unmappedBlocks == abs.unmapped && largeFreeBytes == abs.large
      && bytesDropped == abs.dropped && dropCount == abs.drops
    }

    ghost predicate Rep()
      reads this, freelist, freeBytes
    {
      RepWith(hdrs)
    }

    ghost predicate Valid()
      reads this, freelist, freeBytes
    {
      Rep() && Inv(abs)
    }

    constructor ()
      ensures Valid() && Settled(abs.chunks) && abs == EmptyHeap()
      ensures fresh(freelist) && fresh(freeBytes)
    {
      hdrs := map[];
      freelist := new nat[N_HBLK_FLS + 1](_ => 0);
      freeBytes := new int[N_HBLK_FLS + 1](_ => 0);
      unmappedBlocks := {};
      largeFreeBytes, bytesDropped, dropCount := 0, 0, 0;
      abs := EmptyHeap();
      new;
      NothingRepresented(freelist[..], freeBytes[..]);
    }

    // ---- Free lists ----

    ghost predicate Arrays() {
      freelist.Length == freeBytes.Length == N_HBLK_FLS + 1 && (freelist as object) != freeBytes
    }

    /** The header and counter writes of `GC_remove_from_fl_at`. */
    method Unlink(h: nat, index: nat)
      requires Arrays() && LinksLead(hdrs, h) && index <= N_HBLK_FLS
      modifies this`hdrs, freelist, freeBytes
      ensures hdrs == Unlinked(old(hdrs), h)
      ensures freelist[..] == HeadsWithout(old(hdrs), old(freelist[..]), h, index)
      ensures freeBytes[..] == Debited(old(freeBytes[..]), index, old(hdrs)[h].hdr.sz)
    {
      var hhdr := hdrs[h].hdr;
      if hhdr.prev == 0 {
        freelist[index] := hhdr.next;
      } else {
        hdrs := SetNext(hdrs, hhdr.prev, hhdr.next);
      }
      freeBytes[index] := freeBytes[index] - hhdr.sz;
      if hhdr.next != 0 {
        hdrs := SetPrev(hdrs, hhdr.next, hhdr.prev);
      }
    }

    /** Those of `GC_add_to_fl`. */
    method LinkAtHead(h: nat)
      requires Arrays() && IsHeader(hdrs, h)
      requires var head := freelist[FlFromBlocks(hdrs[h].hdr.sz / HBLKSIZE)]; head != 0 ==> IsHeader(hdrs, head)
      modifies this`hdrs, freelist, freeBytes
      ensures var i, sz := FlFromBlocks(old(hdrs)[h].hdr.sz / HBLKSIZE), old(hdrs)[h].hdr.sz;
        && hdrs == FiledFree(old(hdrs), h, old(freelist[..])[i])
        && freelist[..] == old(freelist[..])[i := h] && freeBytes[..] == Credited(old(freeBytes[..]), i, sz)
    {
      hide FlFromBlocks;
      var hhdr := hdrs[h].hdr;
      var index := FlFromBlocks(hhdr.sz / HBLKSIZE);
      var second := freelist[index];
      freelist[index] := h;
      freeBytes[index] := freeBytes[index] + hhdr.sz;
      hdrs := hdrs[h := Header(hhdr.(prev := 0, next := second))];
      if second != 0 {
        hdrs := SetPrev(hdrs, second, h);
      }
      hdrs := hdrs[h := Header(hdrs[h].hdr.(free := true))];
    }

    /** Those of `GC_split_block` before it files h. */
    method ReplaceInList(h: nat, m: nat, index: nat)
      requires Arrays() && IsHeader(hdrs, m) && h < m && index <= N_HBLK_FLS
      requires LinksLead(hdrs, h) && hdrs[h].hdr.sz >= (m - h) * HBLKSIZE
      modifies this`hdrs, freelist, freeBytes
      ensures hdrs == SplitHeaders(old(hdrs), h, m)
      ensures freelist[..] == HeadsSupplanted(old(hdrs), old(freelist[..]), h, m, index)
      ensures freeBytes[..] == Debited(old(freeBytes[..]), index, (m - h) * HBLKSIZE)
    {
      var hhdr := hdrs[h].hdr;
      var hSize := (m - h) * HBLKSIZE;
      hdrs := hdrs[m := Header(hdrs[m].hdr.(prev := hhdr.prev, next := hhdr.next, sz := hhdr.sz - hSize,
                                             unmapped := false, free := true))];
      if hhdr.prev != 0 {
        hdrs := SetNext(hdrs, hhdr.prev, m);
      } else {
        freelist[index] := m;
      }
      if hhdr.next != 0 {
        hdrs := SetPrev(hdrs, hhdr.next, m);
      }
      freeBytes[index] := freeBytes[index] - hSize;
      hdrs := hdrs[h := Header(hdrs[h].hdr.(sz := hSize))];
    }

    method RemoveFromFlAt(h: nat, index: nat, ghost x: nat, ghost w: nat)
      requires Rep() && InvExcept(abs, x, w)
      requires IsFree(abs, h) && index == Home(h, abs.chunks[h].n, x, w)
      modifies this, freelist, freeBytes
      ensures |old(abs).lists| == N_HBLK_FLS + 1 && index <= N_HBLK_FLS
      ensures Rep() && abs == Take(old(abs), h, index)
    {
      hide InvExcept, Represents, Take;
      TakeRepresents(hdrs, freelist[..], freeBytes[..], abs, h, index, x, w);
      Unlink(h, index);
      TakeCounters(abs, h, index);
      abs := Take(abs, h, index);
    }

    method AddToFl(h: nat, ghost x: nat, ghost w: nat)
      requires Rep() && InvExcept(abs, x, w)
      requires IsTaken(abs, h) && abs.chunks[h].core.sz == abs.chunks[h].n * HBLKSIZE
      modifies this, freelist, freeBytes
      ensures |old(abs).lists| == N_HBLK_FLS + 1
      ensures Rep() && abs == Push(old(abs), h)
    {
      hide InvExcept, Represents, Push, FlFromBlocks;
      PushRepresents(hdrs, freelist[..], freeBytes[..], abs, h, x, w);
      AddableToList(hdrs, freelist[..], freeBytes[..], abs, h, x, w);
      LinkAtHead(h);
      PushCounters(abs, h);
      abs := Push(abs, h);
    }

    // ---- The header index ----

    /** A header with arbitrary contents. */
    method InstallHeader(b: nat)
      modifies this`hdrs
      ensures IsHeader(hdrs, b) && hdrs == old(hdrs)[b := hdrs[b]]
    {
      var d: Hdr := *;
      hdrs := hdrs[b := Header(d)];
    }

    method RemoveHeader(b: nat)
      modifies this`hdrs
      ensures hdrs == old(hdrs) - {b}
    {
      hdrs := hdrs - {b};
    }

    method InstallCounts(h: nat, sz: nat)
      modifies this`hdrs
      ensures hdrs == Counts(old(hdrs), h, sz / HBLKSIZE)
    {
      var i := 1;
      while i < sz / HBLKSIZE
        invariant 1 <= i && (i <= sz / HBLKSIZE || i == 1)
        invariant hdrs == Counts(old(hdrs), h, i)
      {
        hdrs := hdrs[h + i := Forward(if i > MAX_JUMP then MAX_JUMP else i)];
        i := i + 1;
      }
    }

    method RemoveCounts(h: nat, sz: nat)
      modifies this`hdrs
      ensures hdrs == NoCounts(old(hdrs), h, sz / HBLKSIZE)
    {
      var i := 1;
      while i < sz / HBLKSIZE
        invariant 1 <= i && (i <= sz / HBLKSIZE || i == 1)
        invariant hdrs == NoCounts(old(hdrs), h, i)
      {
        hdrs := hdrs - {h + i};
        i := i + 1;
      }
    }

    method SetupHeader(h: nat, sz: nat, kind: nat, ignoreOffPage: bool)
      requires IsHeader(hdrs, h)
      modifies this`hdrs
      ensures hdrs == Completed(old(hdrs), h, sz, kind, ignoreOffPage)
    {
      var d := hdrs[h].hdr;
      hdrs := hdrs[h := Header(Hdr(sz, false, false, kind, ignoreOffPage, d.prev, d.next))];
    }

    /** The last block at or before p that has a header, or 0. */
    method PrevBlock(p: nat) returns (q: nat)
      requires Valid()
      ensures q != 0 ==> q <= p && IsHeader(hdrs, q)
      ensures forall b :: q < b <= p ==> !IsHeader(hdrs, b)
    {
      var j := p;
      while j > 0
        invariant j <= p
        invariant forall b: nat :: j < b <= p ==> !IsHeader(hdrs, b)
      {
        if j !in hdrs {
          j := j - 1;
        } else if hdrs[j].Forward? {
          JumpStaysInside(hdrs, abs, j);
          j := j - hdrs[j].jump;
        } else {
          return j;
        }
      }
      return 0;
    }

    /** `GC_free_block_ending_at`: exactly the free chunk that ends just before h, or 0. */
    method FreeBlockEndingAt(h: nat) returns (p: nat)
      requires Valid() && h in abs.chunks && SettledBut(abs.chunks, h)
      ensures p == FreeBefore(abs.chunks, h)
    {
      p := h - 1;
      while p in hdrs && hdrs[p].Forward?
        invariant p < h && (p == h - 1 || WithinUsed(abs, p, h))
        decreases p
      {
        JumpStaysInside(hdrs, abs, p);
        p := p - hdrs[p].jump;
      }
      if p in hdrs {
        EndingChunk(hdrs, abs, p, h);
        if hdrs[p].hdr.free {
          return p;
        } else {
          return 0;
        }
      }
      p := PrevBlock(h - 1);
      EndingBefore(hdrs, abs, p, h);
      if p != 0 {
        var phdr := hdrs[p].hdr;
        if phdr.free && p * HBLKSIZE + phdr.sz == h * HBLKSIZE {
          return p;
        }
      }
      return 0;
    }

    // ---- Freeing ----

    /** Chunk h absorbs the taken chunk g that follows it. */
    method JoinHeaders(h: nat, g: nat)
      requires Rep() && Inv(abs) && IsTaken(abs, h) && IsTaken(abs, g) && g == h + abs.chunks[h].n
      modifies this
      ensures Rep() && abs == Join(old(abs), h, g)
    {
      hide InvExcept, Represents, Join;
      JoinRepresents(hdrs, freelist[..], freeBytes[..], abs, h, g);
      hdrs := hdrs[h := Header(hdrs[h].hdr.(sz := hdrs[h].hdr.sz + hdrs[g].hdr.sz))];
      RemoveHeader(g);
      JoinCounters(abs, h, g);
      abs := Join(abs, h, g);
    }

    /** `GC_freehblk` up to the search for neighbours. */
    method StartRelease(h: nat, size: nat)
      requires Valid() && Releasable(abs, h) && size == abs.chunks[h].n * HBLKSIZE
      modifies this
      ensures Rep() && abs == Release(old(abs), h)
    {
      hide InvExcept, Represents;
      ReleaseRepresents(hdrs, freelist[..], freeBytes[..], abs, h);
      RemoveCounts(h, size);
      hdrs := hdrs[h := Header(hdrs[h].hdr.(sz := size, free := true))];
      abs := Release(abs, h);
    }

    /** Merges the released chunk h with its successor if that is free, mapped and not too large. */
    method CoalesceNext(h: nat)
      requires Valid() && ReadyToFile(abs.chunks, h) && SettledBut(abs.chunks, h)
      modifies this, freelist, freeBytes
      ensures |old(abs).lists| == N_HBLK_FLS + 1 && old(abs).chunks[h].n > 0
      ensures abs == AbsorbNext(old(abs), h) && Rep()
    {
      hide InvExcept, Represents, Join, Absorb, PositiveSigned, SettledBut;
      NextEntry(hdrs, freelist[..], freeBytes[..], abs, h);
      var hhdr := hdrs[h].hdr;
      var next := h + hhdr.sz / HBLKSIZE;
      if next in hdrs && hdrs[next].hdr.free && !hdrs[next].hdr.unmapped
         && PositiveSigned(hhdr.sz + hdrs[next].hdr.sz) {
        RemoveFromFl(next);
        TakeNeighbour(old(abs), h, next, h, next);
        JoinHeaders(h, next);
      }
    }

    /** Merges the released chunk h into the free chunk prev before it under the same conditions. */
    method CoalescePrevious(h: nat, prev: nat) returns (t: nat)
      requires Valid() && ReadyToFile(abs.chunks, h) && SettledBut(abs.chunks, h)
      requires prev != 0 ==> EndsAt(abs.chunks, prev, h)
      modifies this, freelist, freeBytes
      ensures |old(abs).lists| == N_HBLK_FLS + 1 && h != prev
      ensures t == Survivor(old(abs), h, prev) && abs == AbsorbPrev(old(abs), h, prev) && Rep()
    {
      hide InvExcept, Represents, Join, Absorb, PositiveSigned, SettledBut;
      t := h;
      ListCount(abs, h);
      if prev != 0 {
        PrevEntry(hdrs, freelist[..], freeBytes[..], abs, h, prev);
        var prevhdr := hdrs[prev].hdr;
        if !prevhdr.unmapped && PositiveSigned(hdrs[h].hdr.sz + prevhdr.sz) {
          RemoveFromFl(prev);
          TakeNeighbour(old(abs), prev, h, h, prev);
          JoinHeaders(prev, h);
          t := prev;
        }
      }
    }

    /** `GC_freehblk` on a used chunk or a new section; the aborts become outcomes. */
    method FreeHblk(h: nat) returns (outcome: FreeOutcome)
      requires Valid() && h in abs.chunks && SettledBut(abs.chunks, h) && Freeable(abs.chunks[h])
      modifies this, freelist, freeBytes
      ensures outcome ==
                if old(abs).chunks[h].n >= HALF_SPACE then TooLargeToFree
                else if old(abs).chunks[h].use.Free? then DuplicateFree else Freed
      ensures Valid()
      ensures outcome == Freed ==> Inv(old(abs)) && Releasable(old(abs), h) && abs == Freeing.FreeHblk(old(abs), h)
      ensures outcome != Freed ==> abs == old(abs)
    {
      hide InvExcept, Represents, PositiveSigned, ObjSzToBlocks, SettledBut, AbsorbNext, AbsorbPrev, Push, Survivor;
      FreeableHeader(hdrs, freelist[..], freeBytes[..], abs, h);
      var size := HBLKSIZE * ObjSzToBlocks(hdrs[h].hdr.sz);
      if !PositiveSigned(size) {
        return TooLargeToFree;
      }
      // The source rewrites the header first; on a free chunk that changes nothing.
      if hdrs[h].hdr.free {
        return DuplicateFree;
      }
      ghost var s := abs;
      StartRelease(h, size);
      ReleaseReady(s, h);
      var prev := FreeBlockEndingAt(h);
      CoalesceNext(h);
      MergedUpReady(s, h);
      var lo := CoalescePrevious(h, prev);
      MergedReady(s, h);
      CreditRepresents(hdrs, freelist[..], freeBytes[..], abs, size);
      largeFreeBytes := largeFreeBytes + size;
      abs := Credit(abs, size);
      AddToFl(lo, 0, 0);
      FreedInv(s, h);
      outcome := Freed;
    }

    /** `GC_add_to_heap`: what is usable of the n blocks from start joins the heap. */
    method AddToHeap(start: nat, n: nat) returns (outcome: FreeOutcome)
      requires Valid() && Settled(abs.chunks) && start + n <= ADDRESS_BLOCKS
      requires var (h, k) := Trim(start, n); k > 0 ==> Vacant(abs, h, k)
      modifies this, freelist, freeBytes
      ensures var (h, k) := Trim(start, n);
        && outcome == (if k == 0 then NothingToFree else if k >= HALF_SPACE then TooLargeToFree else Freed)
        && (outcome == Freed ==>
              Valid() && Inv(old(abs)) && Vacant(old(abs), h, k) && abs == Freeing.AddToHeap(old(abs), h, k))
      ensures outcome == NothingToFree ==> Valid() && abs == old(abs)
    {
      hide Rep, InvExcept, Vacant;
      var p: nat, blocks: nat := start, n;
      while blocks > 0 && p <= 1
        invariant p + blocks <= ADDRESS_BLOCKS && Trim(p, blocks) == Trim(start, n)
        decreases blocks
      {
        p, blocks := p + 1, blocks - 1;
      }
      if blocks > 0 && p + blocks == ADDRESS_BLOCKS {
        blocks := blocks - 1;
      }
      if blocks == 0 {
        return NothingToFree;
      }
      outcome := AddSection(p, blocks);
    }

    /** Usable, vacant blocks h to h + n are freed into the heap. */
    method AddSection(h: nat, n: nat) returns (outcome: FreeOutcome)
      requires Valid() && Settled(abs.chunks) && Vacant(abs, h, n)
      modifies this, freelist, freeBytes
      ensures outcome == if n >= HALF_SPACE then TooLargeToFree else Freed
      ensures outcome == Freed ==> Valid() && Inv(old(abs)) && abs == Freeing.AddToHeap(old(abs), h, n)
    {
      hide InvExcept, Represents, ObjSzToBlocks, Vacant, AbsorbNext, AbsorbPrev, Push, Survivor;
      ghost var t := hdrs;
      InstallHeader(h);
      hdrs := hdrs[h := Header(hdrs[h].hdr.(sz := n * HBLKSIZE, unmapped := false, free := false,
                                            ignoreOffPage := false))];
      SectionReady(t, hdrs, freelist[..], freeBytes[..], abs, h, n);
      abs := NewSection(abs, h, n);
      outcome := FreeHblk(h);
    }

    method RemoveFromFl(h: nat)
      requires Valid() && IsFree(abs, h)
      modifies this, freelist, freeBytes
      ensures |old(abs).lists| == N_HBLK_FLS + 1
      ensures Rep() && abs == Absorb(old(abs), h)
    {
      hide InvExcept, Represents, FlFromBlocks;
      FreeHeaderSize(hdrs, freelist[..], freeBytes[..], abs, h);
      RemoveFromFlAt(h, FlFromBlocks(hdrs[h].hdr.sz / HBLKSIZE), 0, 0);
    }

    // ---- Mapping ----

    /** `GC_remap` of chunk h and its flag; t is the index without headers still to be completed. */
    method RemapChunk(h: nat, ghost t: Index)
      requires RepWith(t) && Inv(abs) && IsFree(abs, h) && IsHeader(hdrs, h) && h in t && t[h] == hdrs[h]
      modifies this
      ensures hdrs == Flagged(old(hdrs), h, false) && RepWith(Flagged(t, h, false))
      ensures abs == SetUnmapped(old(abs), h, false)
    {
      hide InvExcept, Represents, FlFromBlocks;
      FreeHeaderSize(t, freelist[..], freeBytes[..], abs, h);
      FlaggedRepresents(t, freelist[..], freeBytes[..], abs, h, false, 0, 0);
      unmappedBlocks := unmappedBlocks - BlockRange(h, hdrs[h].hdr.sz / HBLKSIZE);
      hdrs := Flagged(hdrs, h, false);
      abs := SetUnmapped(abs, h, false);
    }

    // ---- Splitting ----

    /** `GC_split_block`: the fresh header at m takes h's place on list index; h is filed anew. */
    method SplitBlock(h: nat, m: nat, index: nat)
      requires IsHeader(hdrs, m) && RepWith(hdrs - {m}) && Inv(abs) && IsFree(abs, h)
      requires h < m < h + abs.chunks[h].n && index == FlFromBlocks(abs.chunks[h].n)
      modifies this, freelist, freeBytes
      ensures |old(abs).lists| == N_HBLK_FLS + 1
      ensures Rep() && abs == Split(old(abs), h, m, index)
    {
      hide InvExcept, Represents, FlFromBlocks, Supplant, Push;
      ghost var t: Index, d := hdrs - {m}, hdrs[m].hdr;
      SupplantReady(t, freelist[..], freeBytes[..], abs, h, m, index, d);
      SplitSteps(t, hdrs, h, m);
      ReplaceInList(h, m, index);
      abs := Supplant(abs, h, m, index);
      AddToFl(h, m, index);
    }

    /** `GC_get_first_part`. */
    method GetFirstPart(h: nat, bytes: nat, index: nat)
      requires Rep() && InvExcept(abs, h, index) && IsFree(abs, h)
      requires bytes % HBLKSIZE == 0 && bytes <= abs.chunks[h].n * HBLKSIZE
      modifies this, freelist, freeBytes
      ensures |old(abs).lists| == N_HBLK_FLS + 1 && index <= N_HBLK_FLS
      ensures Rep() && abs == FirstPart(old(abs), h, bytes / HBLKSIZE, index)
    {
      hide InvExcept, Represents, FlFromBlocks, Take, Cut, Push;
      FreeHeaderBytes(hdrs, freelist[..], freeBytes[..], abs, h, index);
      var totalSize := hdrs[h].hdr.sz;
      ghost var s := abs;
      RemoveFromFlAt(h, index, h, index);
      if totalSize == bytes {
        return;
      }
      var rest := h + bytes / HBLKSIZE;
      ghost var t := hdrs;
      InstallHeader(rest);
      hdrs := hdrs[rest := Header(hdrs[rest].hdr.(sz := totalSize - bytes, unmapped := false, free := false,
                                                   ignoreOffPage := false))];
      CutReady(t, hdrs, freelist[..], freeBytes[..], s, h, bytes / HBLKSIZE, index);
      abs := Cut(abs, h, bytes / HBLKSIZE);
      AddToFl(rest, 0, 0);
    }

    // ---- Searching ----

    /** No table of the black list is one of the arrays that allocation changes. */
    ghost predicate Apart(bl: BlackLists)
      reads bl
    {
      && (freelist as object) !in {bl.oldNormal as object?, bl.incNormal, bl.oldStack, bl.incStack}
      && (freeBytes as object) !in {bl.oldNormal as object?, bl.incNormal, bl.oldStack, bl.incStack}
    }

    /** The placement loop: the lowest start in chunk h whose window is clear, or past the last start. */
    static method Place(bl: BlackLists, h: nat, n: nat, need: nat, effBytes: nat) returns (last: nat)
      requires bl.Valid() && h > 0 && need <= n && Window(effBytes) <= (if need == 0 then 1 else need)
      ensures var m := FirstClear(bl.Tables(), h, h + n - need + 1, Window(effBytes));
        if m != 0 then last == m
        else h + n - need < last && (need == 1 ==> last == h + n) && (need == 0 ==> last == h + n + 1)
    {
      last := h;
      while last <= h + n - need
        invariant h <= last && (need == 1 ==> last <= h + n) && (need == 0 ==> last <= h + n + 1)
        invariant forall b :: h <= b < last ==> bl.Tables().Listed(b, Window(effBytes))
        decreases h + n + 1 - last
      {
        var r := bl.IsBlackListed(last, effBytes);
        if r == 0 {
          break;
        }
        last := r;
      }
    }

    /** Is chunk h large enough, and is its successor on the list not obviously better? */
    method Suits(bl: BlackLists, ghost env: Env, req: Request, split: MaySplit,
                 h: nat, i: nat, ghost k: nat) returns (ok: bool)
      requires Valid() && bl.Valid() && env.bl == bl.Tables()
      requires At(abs, req, i, k) && h == ChunkAt(abs, i, k)
      ensures ok <==> SizeFits(abs, env, req, split, ListOf(abs, i), k)
    {
      hide Represents, InvExcept, ObjSzToBlocks, FlFromBlocks, ListOf;
      CandidateHeader(hdrs, freelist[..], freeBytes[..], abs, req, i, k);
      var hhdr := hdrs[h].hdr;
      var sizeNeeded, sizeAvail := req.Need(), hhdr.sz / HBLKSIZE;
      if sizeAvail < sizeNeeded {
        return false;
      }
      if sizeAvail == sizeNeeded {
        return true;
      }
      if split == NoSplit {
        return false;
      }
      var next := hhdr.next;
      if next != 0 {
        var nextSize := hdrs[next].hdr.sz / HBLKSIZE;
        if nextSize < sizeAvail && nextSize >= sizeNeeded {
          var listed := bl.IsBlackListed(next, sizeNeeded * HBLKSIZE);
          if listed == 0 {
            return false;
          }
        }
      }
      return true;
    }

    /** Where in chunk h of n blocks the request goes. */
    static method PlaceRequest(bl: BlackLists, ghost env: Env, blLimit: nat, findLeak: bool, req: Request,
                               split: MaySplit, h: nat, n: nat, unmapped: bool) returns (v: Allocation.Verdict)
      requires bl.Valid() && env == Env(bl.Tables(), blLimit, findLeak) && h > 0 && req.Need() <= n
      ensures v == Placement(env, req, split, h, n, unmapped)
    {
      hide ObjSzToBlocks, FirstClear, Request.AvoidsBlackList, View.Listed, Window;
      if !req.AvoidsBlackList() {
        return TakeFrom(h);
      }
      var effSizeNeeded := if req.ignoreOffPage then HBLKSIZE else req.Need() * HBLKSIZE;
      ExposedWindow(req);
      var last := Place(bl, h, n, req.Need(), effSizeNeeded);
      if h + n - last >= req.Need() {
        if last != h && split == AvoidSplitRemapped && unmapped {
          return Skip;
        }
        return TakeFrom(last);
      }
      v := PlaceNowhere(env, blLimit, findLeak, req, split, h, n, unmapped, h + n - last);
    }

    /** The request has no clear start in chunk h; sizeAvail blocks are left after the last one tried. */
    static method PlaceNowhere(ghost env: Env, blLimit: nat, findLeak: bool, req: Request, ghost split: MaySplit,
                               h: nat, n: nat, unmapped: bool, sizeAvail: int) returns (v: Allocation.Verdict)
      requires env.blLimit == blLimit && env.findLeak == findLeak && h > 0 && req.Need() <= n
      requires req.AvoidsBlackList() && FirstClear(env.bl, h, h + n - req.Need() + 1, req.Exposed()) == 0
      requires req.Need() == 1 ==> sizeAvail == 0
      ensures v == Placement(env, req, split, h, n, unmapped)
    {
      hide ObjSzToBlocks, FirstClear, Request.AvoidsBlackList, View.Listed;
      if req.Need() * HBLKSIZE > blLimit && (n - req.Need()) * HBLKSIZE > blLimit {
        return TakeFrom(h);
      }
      if sizeAvail == 0 && req.Need() == 1 && !unmapped && !findLeak {
        return Exhausted;
      }
      return Skip;
    }

    // ---- Granting and dropping ----

    /** Splits chunk h, which is on list i, so that a chunk starts at m, mapping it first if need be. */
    method SplitForPlacement(h: nat, m: nat, i: nat)
      requires Valid() && IsFree(abs, h) && h < m < h + abs.chunks[h].n && i == FlFromBlocks(abs.chunks[h].n)
      modifies this, freelist, freeBytes
      ensures h in Mapped(old(abs), h).chunks && |Mapped(old(abs), h).lists| == N_HBLK_FLS + 1
      ensures Rep() && abs == Split(Mapped(old(abs), h), h, m, i)
    {
      hide InvExcept, Represents, FlFromBlocks, Split, SameCover, SetUnmapped, Flagged;
      ghost var s: Heap, t: Index := abs, hdrs;
      InteriorAbsent(hdrs, freelist[..], freeBytes[..], abs, h, m);
      MappedReady(abs, h);
      InstallHeader(m);
      InstalledBeside(t, hdrs, h, m);
      if hdrs[h].hdr.unmapped {
        RemapChunk(h, t);
      }
      SplitBlock(h, m, i);
    }

    /** Chunk m of list i is cut to the request and given a complete header. For a request of no blocks
        the header to complete has just been displaced by the rest's, so completing it changes nothing. */
    method Grant(m: nat, i: nat, req: Request)
      requires Rep() && InvExcept(abs, m, i) && IsFree(abs, m) && !abs.chunks[m].core.unmapped
      requires req.Valid() && req.Need() <= abs.chunks[m].n && abs.chunks[m].n > 0
      modifies this, freelist, freeBytes
      ensures |old(abs).lists| == N_HBLK_FLS + 1 && i <= N_HBLK_FLS
      ensures Rep()
      ensures var s1 := FirstPart(old(abs), m, req.Need(), i);
        abs == Credit(if req.Need() == 0 then s1 else SetUp(s1, m, req.sz, req.kind, req.ignoreOffPage),
                      -(req.Need() * HBLKSIZE))
    {
      hide InvExcept, Represents, FlFromBlocks, FirstPart, ObjSzToBlocks, Counts;
      ghost var s := abs;
      var sizeNeeded := req.Need() * HBLKSIZE;
      GetFirstPart(m, sizeNeeded, i);
      if req.Need() == 0 {
        return;
      }
      FirstPartKeeps(s, m, req.Need(), i);
      GrantReady(hdrs, freelist[..], freeBytes[..], abs, m, req);
      InstallCounts(m, sizeNeeded);
      SetupHeader(m, req.sz, req.kind, req.ignoreOffPage);
      largeFreeBytes := largeFreeBytes - sizeNeeded;
      abs := Credit(SetUp(abs, m, req.sz, req.kind, req.ignoreOffPage), -sizeNeeded);
    }

    /** The header at r is that of a used chunk of no blocks. */
    ghost predicate EmptyHeaderAt(r: nat)
      reads this
    {
      IsHeader(hdrs, r) && !hdrs[r].hdr.free && ObjSzToBlocks(hdrs[r].hdr.sz) == 0
    }

    /** The state after a call that overran and returned r, or did not. */
    ghost predicate LeftBy(overran: bool, r: nat)
      reads this, freelist, freeBytes
    {
      if overran then EmptyHeaderAt(r) else Valid()
    }

    /** The header at m, just past h on list i, takes h's place on the list, h is filed again, and m is
        taken off. */
    method PassThroughList(h: nat, m: nat, i: nat)
      requires Arrays() && i <= N_HBLK_FLS && LinksLead(hdrs, h) && IsHeader(hdrs, m) && 0 < h < m
      requires hdrs[h].hdr.sz == (m - h) * HBLKSIZE && i == FlFromBlocks(m - h)
      requires freelist[i] != 0 && IsHeader(hdrs, freelist[i])
      modifies this`hdrs, freelist, freeBytes
      ensures IsHeader(hdrs, m)
    {
      hide FlFromBlocks, LinksLead, Unlinked, FiledFree, SplitHeaders;
      OverwriteSteps(hdrs, freelist[..], h, m, i);
      ReplaceInList(h, m, i);
      LinkAtHead(h);
      Unlink(m, i);
    }

    /** A request of no blocks placed just past chunk h of list i: the header at m, whosever it was, is
        displaced, goes through the lists, and is completed. */
    method OverwriteNext(h: nat, m: nat, i: nat, req: Request)
      requires Valid() && Placeable(abs, req, h, m, i) && m == h + abs.chunks[h].n
      modifies this, freelist, freeBytes
      ensures |old(abs).lists| == N_HBLK_FLS + 1 && i <= N_HBLK_FLS
      ensures abs == Commit(old(abs), req, h, m, i) && EmptyHeaderAt(m)
    {
      hide InvExcept, Represents, FlFromBlocks, ObjSzToBlocks, LinksLead, Commit, BlockRange;
      OverwriteReady(hdrs, freelist[..], freeBytes[..], abs, h, i);
      ghost var t: Index := hdrs;
      InstallHeader(m);
      if hdrs[h].hdr.unmapped {
        unmappedBlocks := unmappedBlocks - BlockRange(h, hdrs[h].hdr.sz / HBLKSIZE);
        hdrs := Flagged(hdrs, h, false);
      }
      OverwriteInstalled(t, hdrs, h, m);
      PassThroughList(h, m, i);
      SetupHeader(m, req.sz, req.kind, req.ignoreOffPage);
      abs := Commit(abs, req, h, m, i);
    }

    /** The request placed at m in chunk h of list i. */
    method PlaceAndGrant(h: nat, m: nat, i: nat, req: Request)
      requires Valid() && Placeable(abs, req, h, m, i)
      modifies this, freelist, freeBytes
      ensures |old(abs).lists| == N_HBLK_FLS + 1 && i <= N_HBLK_FLS
      ensures abs == Commit(old(abs), req, h, m, i)
      ensures LeftBy(m == h + old(abs).chunks[h].n, m)
    {
      hide InvExcept, Represents, FlFromBlocks, FirstPart, ObjSzToBlocks, SetUp, Split, SetUnmapped, SameCover;
      ghost var s := abs;
      FreeHeaderSize(hdrs, freelist[..], freeBytes[..], abs, h);
      if m == h + hdrs[h].hdr.sz / HBLKSIZE {
        OverwriteNext(h, m, i, req);
        return;
      }
      PlaceableFacts(s, req, h, m, i);
      CommitKeeps(s, req, h, m, i);
      if m != h {
        SplitForPlacement(h, m, i);
      } else {
        FlagOf(hdrs, freelist[..], freeBytes[..], abs, h);
        if hdrs[h].hdr.unmapped {
          RemapChunk(h, hdrs);
        }
      }
      assert abs == SplitAt(Mapped(s, h), h, m, i);
      Grant(m, i, req);
    }

    /** Every block from h to limit gets the header of a single-block pointer-free chunk. */
    method SetupDropped(h: nat, limit: nat)
      requires IsHeader(hdrs, h) && h <= limit
      modifies this`hdrs
      ensures DroppedHeaders(old(hdrs), hdrs, h, limit - h)
    {
      hide HeaderMatches;
      var b := h;
      while b < limit
        invariant h <= b <= limit
        invariant DroppedHeaders(old(hdrs), hdrs, h, b - h)
        invariant b == h ==> IsHeader(hdrs, h)
      {
        hide DroppedHeaders;
        ghost var v: Index := hdrs;
        if b != h {
          InstallHeader(b);
        }
        DroppedHeaderMatches(hdrs, b);
        SetupHeader(b, HBLKSIZE, PTRFREE, false);
        OneMoreDropped(old(hdrs), v, hdrs, h, b);
        b := b + 1;
      }
    }

    /** Chunk h, wholly black-listed, leaves list i and is dropped in single blocks. */
    method DropChunk(h: nat, i: nat)
      requires Valid() && IsFree(abs, h) && i == FlFromBlocks(abs.chunks[h].n)
      modifies this, freelist, freeBytes
      ensures |old(abs).lists| == N_HBLK_FLS + 1
      ensures Valid() && abs == Drop(old(abs), h, i)
    {
      hide InvExcept, Represents, FlFromBlocks, Take, Drop, HeaderMatches, DroppedHeaders, Completed;
      ghost var s := abs;
      DropReady(hdrs, freelist[..], freeBytes[..], abs, h, i);
      var totalSize := hdrs[h].hdr.sz;
      var limit := h + totalSize / HBLKSIZE;
      largeFreeBytes := largeFreeBytes - totalSize;
      bytesDropped := bytesDropped + totalSize;
      abs := Moved(abs, totalSize);
      RemoveFromFlAt(h, i, 0, 0);
      ghost var t := hdrs;
      DropStart(t, freelist[..], freeBytes[..], Moved(s, totalSize), h, i);
      SetupDropped(h, limit);
      DropDone(t, hdrs, freelist[..], freeBytes[..], s, h, i);
      abs := Drop(s, h, i);
    }

    /** Counts the wholly black-listed candidate h and drops it if it is the fourth. */
    method ShedCandidate(h: nat, i: nat, ghost req: Request, ghost k: nat) returns (dropped: bool)
      requires Valid() && At(abs, req, i, k) && h == ChunkAt(abs, i, k)
      modifies this, freelist, freeBytes
      ensures Valid() && abs == Onward(old(abs), req, i, k)
      ensures dropped <==> After(old(abs), k) == k
    {
      hide InvExcept, Represents, FlFromBlocks, Drop, ObjSzToBlocks;
      ghost var s := abs;
      TickReady(hdrs, freelist[..], freeBytes[..], abs, h);
      dropCount := dropCount + 1;
      abs := Tick(abs);
      dropped := dropCount % 4 == 0;
      if dropped {
        DropChunk(h, i);
      }
    }

    /** `GC_allochblk_nth`. */
    method AllochblkNth(bl: BlackLists, blLimit: nat, findLeak: bool, req: Request, i: nat, split: MaySplit)
      returns (r: nat)
      requires Valid() && bl.Valid() && Apart(bl) && Ready(abs, req, i)
      modifies this, freelist, freeBytes
      ensures Ready(old(abs), req, i)
      ensures (abs, r) == Nth(old(abs), Env(old(bl.Tables()), blLimit, findLeak), req, i, split)
      ensures LeftBy(Overruns(old(abs), Env(old(bl.Tables()), blLimit, findLeak), req, i, split), r)
      decreases |ListOf(abs, i)|
    {
      hide InvExcept, Represents, FlFromBlocks, Commit, Find, Search.Verdict, ObjSzToBlocks, ListOf, Get, Apart;
      hide Overruns;
      ghost var s, k, env := abs, 0, Env(bl.Tables(), blLimit, findLeak);
      HeadOfList(hdrs, freelist[..], freeBytes[..], abs, req, i);
      var hbp := freelist[i];
      while hbp != 0
        invariant Valid() && bl.Valid() && Apart(bl) && env == Env(bl.Tables(), blLimit, findLeak)
        invariant Ready(abs, req, i) && hbp == Get(ListOf(abs, i), k)
        invariant Find(abs, env, req, i, split, k) == Find(s, env, req, i, split, 0)
        invariant |ListOf(abs, i)| <= |ListOf(s, i)|
        decreases |ListOf(abs, i)| - k
      {
        AtCandidate(hdrs, freelist[..], freeBytes[..], abs, req, i, k);
        FindUnfolds(abs, env, req, i, split, k);
        var hhdr := hdrs[hbp].hdr;
        var v := Consider(bl, env, blLimit, findLeak, req, split, hbp, i, k);
        match v {
          case Skip =>
            hbp, k := hhdr.next, k + 1;
          case TakeFrom(m) =>
            NthIs(s, abs, env, req, i, split, k);
            PlaceAndGrant(hbp, m, i, req);
            return m;
          case Exhausted =>
            ghost var s1 := abs;
            var dropped := ShedCandidate(hbp, i, req, k);
            if dropped {
              if hhdr.prev == 0 {
                NthSame(s, abs, env, req, i, split);
                r := AllochblkNth(bl, blLimit, findLeak, req, i, split);
                return;
              }
              AfterDrop(hdrs, freelist[..], freeBytes[..], s1, abs, req, i, k);
              hbp := hdrs[hhdr.prev].hdr.next;
            } else {
              ListKept(s1, req, i, k);
              hbp, k := hhdr.next, k + 1;
            }
        }
      }
      NothingFound(s, abs, env, req, i, split, k);
      return 0;
    }

    /** What the search does with chunk h at position k of list i. */
    method Consider(bl: BlackLists, ghost env: Env, blLimit: nat, findLeak: bool, req: Request, split: MaySplit,
                    h: nat, i: nat, ghost k: nat) returns (v: Allocation.Verdict)
      requires Valid() && bl.Valid() && env == Env(bl.Tables(), blLimit, findLeak)
      requires At(abs, req, i, k) && h == ChunkAt(abs, i, k)
      ensures v == Search.Verdict(abs, env, req, i, split, k)
    {
      hide InvExcept, Represents, FlFromBlocks, ObjSzToBlocks, ListOf, Placement, Apart;
      CandidateHeader(hdrs, freelist[..], freeBytes[..], abs, req, i, k);
      var ok := Suits(bl, env, req, split, h, i, k);
      if !ok {
        return Skip;
      }
      v := PlaceRequest(bl, env, blLimit, findLeak, req, split, h, hdrs[h].hdr.sz / HBLKSIZE, hdrs[h].hdr.unmapped);
    }

    // ---- The entry point ----

    /** `GC_enough_large_bytes_left`, where the counted bytes fit a word. */
    method EnoughLargeBytesLeft(largeAllocd: nat, maxLargeAllocd: nat) returns (n: nat)
      requires freeBytes.Length == N_HBLK_FLS + 1
      ensures n == EnoughFrom(freeBytes[..], N_HBLK_FLS, largeAllocd, maxLargeAllocd)
    {
      n := N_HBLK_FLS;
      var bytes: int := largeAllocd;
      while true
        invariant n <= N_HBLK_FLS
        invariant EnoughFrom(freeBytes[..], n, bytes, maxLargeAllocd)
               == EnoughFrom(freeBytes[..], N_HBLK_FLS, largeAllocd, maxLargeAllocd)
        decreases n
      {
        bytes := bytes + freeBytes[n];
        if bytes >= maxLargeAllocd {
          return n;
        }
        if n == 0 {
          return 0;
        }
        n := n - 1;
      }
    }

    /** `GC_compute_large_free_bytes`: walking all lists finds exactly the bytes in free chunks. */
    method ComputeLargeFreeBytes() returns (totalFree: int)
      requires Valid()
      ensures totalFree == FreeBlocks(abs) * HBLKSIZE
    {
      hide InvExcept, Represents, Weigh;
      totalFree := 0;
      ListTotals(abs);
      ListsCounted(hdrs, freelist[..], freeBytes[..], abs);
      var i := 0;
      while i <= N_HBLK_FLS
        invariant i <= N_HBLK_FLS + 1
        invariant totalFree + SuffixBytes(ListBytes(abs), i) == FreeBlocks(abs) * HBLKSIZE
      {
        var h := freelist[i];
        ghost var k := 0;
        while h != 0
          invariant k <= |ListOf(abs, i)| && h == Get(ListOf(abs, i), k)
          invariant totalFree + BytesOn(abs.chunks, ListOf(abs, i)[k..]) + SuffixBytes(ListBytes(abs), i + 1)
                 == FreeBlocks(abs) * HBLKSIZE
          decreases |ListOf(abs, i)| - k
        {
          OnList(hdrs, freelist[..], freeBytes[..], abs, i, k);
          assert ListOf(abs, i)[k..][1..] == ListOf(abs, i)[k + 1..];
          totalFree := totalFree + hdrs[h].hdr.sz;
          h, k := hdrs[h].hdr.next, k + 1;
        }
        EndOfList(abs, i, k);
        i := i + 1;
      }
    }

    /** `GC_allochblk`. */
    method Allochblk(bl: BlackLists, blLimit: nat, findLeak: bool, req: Request, p: Policy) returns (r: nat)
      requires Valid() && bl.Valid() && Apart(bl)
      modifies this, freelist, freeBytes
      ensures Inv(old(abs))
      ensures (abs, r) == Allocator.Allochblk(old(abs), Env(old(bl.Tables()), blLimit, findLeak), req, p)
      ensures LeftBy(AllocOverruns(old(abs), Env(old(bl.Tables()), blLimit, findLeak), req, p), r)
    {
      hide InvExcept, Represents, FlFromBlocks, Nth, ObjSzToBlocks, NegativeSigned, Apart, EnoughFrom, Grants, Overruns;
      ghost var s, env := abs, Env(bl.Tables(), blLimit, findLeak);
      var blocks := req.Need();
      TooLarge(req);
      if NegativeSigned(blocks * HBLKSIZE) {
        return 0;
      }
      var startList := FlFromBlocks(blocks);
      r := AllochblkNth(bl, blLimit, findLeak, req, startList, NoSplit);
      if r != 0 {
        return;
      }
      NthKeeps(s, env, req, startList, NoSplit);
      BytesAre(hdrs, freelist[..], freeBytes[..], abs);
      var splitLimit, maySplit := ChooseSplitLimit(p);
      if startList < UNIQUE_THRESHOLD {
        startList := startList + 1;
      }
      ghost var s1, l := abs, Limit(splitLimit, maySplit);
      while startList <= splitLimit
        invariant Valid() && bl.Valid() && Apart(bl) && env == Env(bl.Tables(), blLimit, findLeak)
        invariant AllocFrom(abs, env, req, startList, l) == AllocFrom(s1, env, req, SecondStart(req), l)
        invariant FromOverruns(abs, env, req, startList, l) <==> FromOverruns(s1, env, req, SecondStart(req), l)
        decreases splitLimit + 1 - startList
      {
        NthKeeps(abs, env, req, startList, maySplit);
        r := AllochblkNth(bl, blLimit, findLeak, req, startList, maySplit);
        if r != 0 {
          return;
        }
        startList := startList + 1;
      }
      r := 0;
    }

    /** How far up the lists the second pass may split, and how eagerly. */
    method ChooseSplitLimit(p: Policy) returns (splitLimit: nat, maySplit: MaySplit)
      requires freeBytes.Length == N_HBLK_FLS + 1
      ensures Limit(splitLimit, maySplit) == ChooseLimit(freeBytes[..], p)
    {
      maySplit := MayBeSplit;
      if p.useWholeHeap {
        splitLimit := N_HBLK_FLS;
      } else if p.finalizerBytesFreed > p.heapsize / 16 {
        splitLimit := 0;
      } else {
        splitLimit := EnoughLargeBytesLeft(p.largeAllocd, p.maxLargeAllocd);
        if p.munmap && splitLimit > 0 {
          maySplit := AvoidSplitRemapped;
        }
      }
    }

    // ---- Returning memory to the operating system ----

    /** `GC_unmap` of chunk h and its flag. */
    method UnmapChunk(h: nat)
      requires Valid() && IsFree(abs, h)
      modifies this
      ensures Rep() && abs == SetUnmapped(old(abs), h, true)
    {
      hide InvExcept, Represents, FlFromBlocks;
      FreeHeaderSize(hdrs, freelist[..], freeBytes[..], abs, h);
      FlaggedRepresents(hdrs, freelist[..], freeBytes[..], abs, h, true, 0, 0);
      unmappedBlocks := unmappedBlocks + BlockRange(h, hdrs[h].hdr.sz / HBLKSIZE);
      hdrs := Flagged(hdrs, h, true);
      abs := SetUnmapped(abs, h, true);
    }

    /** `GC_unmap_old`; stale holds the chunks whose age calls for unmapping. */
    method UnmapOld(stale: set<nat>)
      requires Valid()
      modifies this
      ensures Inv(old(abs))
      ensures Valid() && abs == Unmapping.UnmapOld(old(abs), 0, stale)
    {
      hide InvExcept, Represents, UnmapList, SetUnmapped, UnmapOne;
      ghost var s := abs;
      var i := 0;
      while i <= N_HBLK_FLS
        invariant Valid() && Unmapping.UnmapOld(abs, i, stale) == Unmapping.UnmapOld(s, 0, stale)
        decreases N_HBLK_FLS + 1 - i
      {
        ghost var s1, k := abs, 0;
        HeadIs(hdrs, freelist[..], freeBytes[..], abs, i);
        var h := freelist[i];
        while h != 0
          invariant Valid() && k <= |ListOf(abs, i)| && h == Get(ListOf(abs, i), k)
          invariant UnmapList(abs, i, k, stale) == UnmapList(s1, i, 0, stale)
          decreases |ListOf(abs, i)| - k
        {
          OnList(hdrs, freelist[..], freeBytes[..], abs, i, k);
          UnmapUnfolds(abs, i, k, stale);
          var hhdr := hdrs[h].hdr;
          if !hhdr.unmapped && h in stale {
            UnmapChunk(h);
          }
          h, k := hhdr.next, k + 1;
        }
        EndOfList(abs, i, k);
        UnmapEnds(abs, i, k, stale);
        i := i + 1;
      }
    }

    /** Brings chunk h and its free successor to one mapping state: that of the larger, or of the successor. */
    method AlignPair(h: nat, ghost i: nat)
      requires Valid() && Pair(abs, h, i)
      modifies this
      ensures Rep() && abs == Align(old(abs), h)
    {
      hide InvExcept, Represents, FlFromBlocks, SetUnmapped;
      PairHeaders(hdrs, freelist[..], freeBytes[..], abs, h);
      var hhdr := hdrs[h].hdr;
      var next := h + hhdr.sz / HBLKSIZE;
      var nexthdr := hdrs[next].hdr;
      var size, nextsize := hhdr.sz, nexthdr.sz;
      if !hhdr.unmapped && nexthdr.unmapped {
        if size > nextsize {
          ShiftRepresents(hdrs, freelist[..], freeBytes[..], abs, next, false);
          unmappedBlocks := unmappedBlocks - BlockRange(next, nextsize / HBLKSIZE);
          abs := Shift(abs, next, false);
        } else {
          UnmapChunk(h);
        }
      } else if !nexthdr.unmapped && hhdr.unmapped {
        if size > nextsize {
          ShiftRepresents(hdrs, freelist[..], freeBytes[..], abs, next, true);
          unmappedBlocks := unmappedBlocks + BlockRange(next, nextsize / HBLKSIZE);
          abs := Shift(abs, next, true);
        } else {
          RemapChunk(h, hdrs);
        }
      }
    }

    /** One merge of `GC_merge_unmapped`. */
    method MergeWithNext(h: nat, i: nat)
      requires Valid() && Pair(abs, h, i)
      modifies this, freelist, freeBytes
      ensures old(abs).chunks[h].n > 0 && |old(abs).lists| == N_HBLK_FLS + 1 && i <= N_HBLK_FLS
      ensures Valid() && abs == MergePair(old(abs), h, i)
    {
      hide InvExcept, Represents, FlFromBlocks, Align, Take, Join, Push, SameCover, Replaced, Weigh;
      ghost var s := abs;
      PairHeaders(hdrs, freelist[..], freeBytes[..], abs, h);
      var next := h + hdrs[h].hdr.sz / HBLKSIZE;
      PairShape(s, h, i);
      AlignKeeps(s, h, i);
      TakenPair(s, h, i);
      LateSteps(Take(Align(s, h), h, i), h, next);
      MergePairResult(s, h, i);
      AlignPair(h, i);
      RemoveFromFlAt(h, i, 0, 0);
      RemoveFromFl(next);
      JoinHeaders(h, next);
      AddToFl(h, 0, 0);
    }

    /** `GC_merge_unmapped`. */
    method MergeUnmapped()
      requires Valid() && Settled(abs.chunks)
      modifies this, freelist, freeBytes
      ensures Inv(old(abs))
      ensures Valid() && Settled(abs.chunks) && abs == Merging.MergeUnmapped(old(abs), 0)
    {
      hide InvExcept, Represents, MergeList, MergePair, Settled, CanMerge;
      ghost var s := abs;
      var i := 0;
      while i <= N_HBLK_FLS
        invariant Valid() && Settled(abs.chunks) && Merging.MergeUnmapped(abs, i) == Merging.MergeUnmapped(s, 0)
        decreases N_HBLK_FLS + 1 - i
      {
        ghost var s1, k := abs, 0;
        HeadIs(hdrs, freelist[..], freeBytes[..], abs, i);
        var h := freelist[i];
        while h != 0
          invariant Valid() && Settled(abs.chunks) && k <= |ListOf(abs, i)| && h == Get(ListOf(abs, i), k)
          invariant MergeList(abs, i, k) == MergeList(s1, i, 0)
          decreases |abs.chunks|, |ListOf(abs, i)| - k
        {
          OnList(hdrs, freelist[..], freeBytes[..], abs, i, k);
          MergeUnfolds(abs, i, k);
          var mergeable := NextCanMerge(h);
          if mergeable {
            MergeWithNext(h, i);
            HeadIs(hdrs, freelist[..], freeBytes[..], abs, i);
            h, k := freelist[i], 0;
          } else {
            h, k := hdrs[h].hdr.next, k + 1;
          }
        }
        EndOfList(abs, i, k);
        MergeEnds(abs, i, k);
        i := i + 1;
      }
    }

    method NextCanMerge(h: nat) returns (ok: bool)
      requires Valid() && Settled(abs.chunks) && IsFree(abs, h)
      ensures ok <==> CanMerge(abs, h)
    {
      hide InvExcept, Represents, FlFromBlocks, PositiveSigned, Settled;
      SuccessorEntry(hdrs, freelist[..], freeBytes[..], abs, h);
      var size := hdrs[h].hdr.sz;
      var next := h + size / HBLKSIZE;
      ok := next in hdrs && hdrs[next].hdr.free && PositiveSigned(size + hdrs[next].hdr.sz);
    }
  }

  /** The header of the candidate and of its successor on the list. */
  lemma CandidateHeader(t: Index, heads: seq<nat>, bytes: seq<int>, s: Heap, req: Request, i: nat, k: nat)
    requires Represents(t, heads, bytes, s) && At(s, req, i, k)
    ensures var h, l := ChunkAt(s, i, k), ListOf(s, i);
      && IsHeader(t, h) && t[h].hdr.sz / HBLKSIZE == s.chunks[h].n && t[h].hdr.unmapped == s.chunks[h].core.unmapped
      && t[h].hdr.prev == Get(l, k - 1) && t[h].hdr.next == Get(l, k + 1)
      && (t[h].hdr.prev == 0 <==> k == 0)
      && (t[h].hdr.next == 0 <==> k + 1 == |l|)
      && (k > 0 ==> IsHeader(t, l[k - 1]))
      && (k + 1 < |l| ==>
            && l[k + 1] in s.chunks && IsHeader(t, l[k + 1])
            && t[l[k + 1]].hdr.sz / HBLKSIZE == s.chunks[l[k + 1]].n)
  {
    assert |s.lists| == N_HBLK_FLS + 1 && |heads| == N_HBLK_FLS + 1;
    ListShape(s, 0, 0, i);
    FreeHeaderSize(t, heads, bytes, s, ChunkAt(s, i, k));
    NeighboursAreHeaders(t, s.lists[i], k);
    assert LinkedAt(t, s.lists[i], k);
    if k + 1 < |s.lists[i]| {
      FreeHeaderSize(t, heads, bytes, s, ChunkAt(s, i, k + 1));
    }
    hide InvExcept, Records, LinkedLists, FlFromBlocks;
  }

  lemma InteriorAbsent(t: Index, heads: seq<nat>, bytes: seq<int>, s: Heap, h: nat, m: nat)
    requires Represents(t, heads, bytes, s) && Inv(s) && IsFree(s, h) && h < m < h + s.chunks[h].n
    ensures m !in t && IsHeader(t, h) && t[h].hdr.unmapped == s.chunks[h].core.unmapped
  {
    assert InnerEntry(t, s.chunks[h], h, m);
  }

  lemma MappedReady(s: Heap, h: nat)
    requires Inv(s) && IsFree(s, h)
    ensures |s.lists| == N_HBLK_FLS + 1
    ensures var t := Mapped(s, h);
      h in t.chunks && Inv(t) && IsFree(t, h) && t.chunks[h].n == s.chunks[h].n && |t.lists| == N_HBLK_FLS + 1
  {
    MappedKeeps(s, h);
    ListCount(s, h);
  }

  /** A header installed at m does not disturb what t says, before or after h is flagged. */
  lemma InstalledBeside(t: Index, u: Index, h: nat, m: nat)
    requires m !in t && m != h && IsHeader(t, h) && IsHeader(u, m) && u == t[m := u[m]]
    ensures u - {m} == t && u[h] == t[h]
    ensures Flagged(u, h, false) - {m} == Flagged(t, h, false) && IsHeader(Flagged(u, h, false), m)
  {
  }

  /** Headers of h and of its neighbours on its list, before its next chunk's header is displaced. */
  lemma OverwriteReady(t: Index, heads: seq<nat>, bytes: seq<int>, s: Heap, h: nat, i: nat)
    requires Represents(t, heads, bytes, s) && Inv(s) && IsFree(s, h) && i == FlFromBlocks(s.chunks[h].n)
    ensures |heads| == |bytes| == N_HBLK_FLS + 1 == |s.lists| && i <= N_HBLK_FLS && s.chunks[h].n > 0
    ensures h > 0 && LinksLead(t, h) && IsHeader(t, h) && t[h].hdr.sz == s.chunks[h].n * HBLKSIZE
    ensures heads[i] != 0 && IsHeader(t, heads[i])
  {
    hide Tagged, FlFromBlocks;
    ChunkFacts(s, h, 0, 0);
    RemovableFromList(t, heads, bytes, s, h, i, 0, 0);
    assert LinkedAt(t, s.lists[i], 0) && s.lists[i][0] in s.lists[i];
  }

  /** More headers, and another flag on h, leave its links leading to headers. */
  lemma OverwriteInstalled(t: Index, u: Index, h: nat, m: nat)
    requires LinksLead(t, h) && m != h && IsHeader(u, m)
    requires forall b :: IsHeader(t, b) ==> IsHeader(u, b)
    requires IsHeader(u, h) && u[h].hdr.prev == t[h].hdr.prev && u[h].hdr.next == t[h].hdr.next
    ensures LinksLead(u, h)
  {
  }

  /** Through the split and the filing of h every link of h and m still leads to a header. */
  lemma OverwriteSteps(u: Index, heads: seq<nat>, h: nat, m: nat, i: nat)
    requires LinksLead(u, h) && IsHeader(u, m) && 0 < h < m && u[h].hdr.sz == (m - h) * HBLKSIZE
    requires i < |heads| && heads[i] != 0 && IsHeader(u, heads[i])
    ensures var u1, heads1 := SplitHeaders(u, h, m), HeadsSupplanted(u, heads, h, m, i);
      && IsHeader(u1, h) && u1[h].hdr.sz == (m - h) * HBLKSIZE && heads1[i] != 0 && IsHeader(u1, heads1[i])
      && LinksLead(FiledFree(u1, h, heads1[i]), m)
      && IsHeader(Unlinked(FiledFree(u1, h, heads1[i]), m), m)
  {
  }

  lemma FlagOf(t: Index, heads: seq<nat>, bytes: seq<int>, s: Heap, h: nat)
    requires Represents(t, heads, bytes, s) && h in s.chunks
    ensures IsHeader(t, h) && t[h].hdr.unmapped == s.chunks[h].core.unmapped
  {
  }

  /** The bytes that the placement loop asks the black list about make the request's window. */
  lemma ExposedWindow(req: Request)
    ensures Window(if req.ignoreOffPage then HBLKSIZE else req.Need() * HBLKSIZE) == req.Exposed()
    ensures Window(req.Need() * HBLKSIZE) == req.Width()
  {
    hide ObjSzToBlocks;
  }

  lemma PlaceableFacts(s: Heap, req: Request, h: nat, m: nat, i: nat)
    requires Placeable(s, req, h, m, i) && m < h + s.chunks[h].n
    ensures |s.lists| == N_HBLK_FLS + 1 && i <= N_HBLK_FLS
    ensures var t := SplitAt(Mapped(s, h), h, m, i);
      && InvExcept(t, m, i) && IsFree(t, m) && !t.chunks[m].core.unmapped
      && 0 < t.chunks[m].n && req.Need() <= t.chunks[m].n
  {
    assert |s.lists| == N_HBLK_FLS + 1;
    hide Filed, Tiled, FlFromBlocks, ObjSzToBlocks, Split;
    MappedKeeps(s, h);
    SplitAtKeeps(Mapped(s, h), h, m, i);
    SplitAtUnflagged(Mapped(s, h), h, m, i);
  }

  lemma SplitAtUnflagged(s: Heap, h: nat, m: nat, i: nat)
    requires h in s.chunks && h <= m < h + s.chunks[h].n && |s.lists| == N_HBLK_FLS + 1 && i <= N_HBLK_FLS
    requires !s.chunks[h].core.unmapped
    ensures !SplitAt(s, h, m, i).chunks[m].core.unmapped
  {
    hide FlFromBlocks;
  }

  /** A taken chunk of the request's size, counted and completed. */
  lemma GrantReady(t: Index, heads: seq<nat>, bytes: seq<int>, s: Heap, m: nat, req: Request)
    requires Represents(t, heads, bytes, s) && Inv(s) && IsTaken(s, m) && s.chunks[m].n == req.Need()
    ensures var u := Counts(t, m, req.Need());
      IsHeader(u, m) && Represents(Completed(u, m, req.sz, req.kind, req.ignoreOffPage), heads, bytes,
        Credit(SetUp(s, m, req.sz, req.kind, req.ignoreOffPage), -(req.Need() * HBLKSIZE)))
  {
    hide Tiled, Filed, Represents, Counts, ObjSzToBlocks;
    CountsRepresents(t, heads, bytes, s, m);
    var u, s1 := Counts(t, m, req.Need()), WithCounts(s, m);
    CountedKeeps(s, m);
    CompletedRepresents(u, heads, bytes, s1, m, req.sz, req.kind, req.ignoreOffPage);
    assert SetUp(s1, m, req.sz, req.kind, req.ignoreOffPage) == SetUp(s, m, req.sz, req.kind, req.ignoreOffPage);
    CreditRepresents(Completed(u, m, req.sz, req.kind, req.ignoreOffPage), heads, bytes,
                     SetUp(s, m, req.sz, req.kind, req.ignoreOffPage), -(req.Need() * HBLKSIZE));
  }

  lemma CountedKeeps(s: Heap, h: nat)
    requires Inv(s) && IsTaken(s, h)
    ensures Inv(WithCounts(s, h))
  {
  }

  /** The dropped bytes moved between the counters. */
  function Moved(s: Heap, bytes: nat): Heap {
    Heap(s.chunks, s.lists, s.unmapped, s.large - bytes, s.dropped + bytes, s.drops)
  }

  lemma DropReady(t: Index, heads: seq<nat>, bytes: seq<int>, s: Heap, h: nat, i: nat)
    requires Represents(t, heads, bytes, s) && Inv(s) && IsFree(s, h) && i == FlFromBlocks(s.chunks[h].n)
    ensures |s.lists| == N_HBLK_FLS + 1 && IsHeader(t, h) && t[h].hdr.sz == s.chunks[h].n * HBLKSIZE && h > 0
    ensures var r := Moved(s, s.chunks[h].n * HBLKSIZE);
      Represents(t, heads, bytes, r) && InvExcept(r, 0, 0) && IsFree(r, h)
  {
    FreeHeaderSize(t, heads, bytes, s, h);
    BytesStay(s, Moved(s, s.chunks[h].n * HBLKSIZE));
  }

  lemma OneMoreDropped(t: Index, v: Index, u: Index, h: nat, b: nat)
    requires h <= b && DroppedHeaders(t, v, h, b - h)
    requires IsHeader(u, b) && HeaderMatches(u[b].hdr, DroppedBlock()) && u == v[b := u[b]]
    ensures DroppedHeaders(t, u, h, b - h + 1)
  {
    hide HeaderMatches;
    forall c: nat | h <= c < b + 1
      ensures IsHeader(u, c) && HeaderMatches(u[c].hdr, DroppedBlock())
    {
      assert c != b ==> c in v && u[c] == v[c];
    }
  }

  lemma DroppedHeaderMatches(u: Index, b: nat)
    requires IsHeader(u, b)
    ensures HeaderMatches(Completed(u, b, HBLKSIZE, PTRFREE, false)[b].hdr, DroppedBlock())
  {
  }

  /** Taken off its list, the chunk is ready to be overwritten. */
  lemma DropStart(t: Index, heads: seq<nat>, bytes: seq<int>, s: Heap, h: nat, i: nat)
    requires h in s.chunks && i < |s.lists| && Represents(t, heads, bytes, Take(s, h, i))
    ensures IsHeader(t, h) && DroppedHeaders(t, t, h, 0)
  {
    hide Insides, ForwardsInside, LinkedLists, ListBytes, HeaderMatches;
  }

  lemma DropDone(t: Index, u: Index, heads: seq<nat>, bytes: seq<int>, s: Heap, h: nat, i: nat)
    requires Inv(s) && IsFree(s, h) && i == FlFromBlocks(s.chunks[h].n) && |s.lists| == N_HBLK_FLS + 1
    requires Represents(t, heads, bytes, Take(Moved(s, s.chunks[h].n * HBLKSIZE), h, i))
    requires DroppedHeaders(t, u, h, s.chunks[h].n)
    ensures Represents(u, heads, bytes, Drop(s, h, i)) && Inv(Drop(s, h, i))
    ensures var q, r := Take(Moved(s, s.chunks[h].n * HBLKSIZE), h, i), Drop(s, h, i);
      && r.unmapped == q.unmapped && r.large == q.large && r.dropped == q.dropped && r.drops == q.drops
  {
    DropKeeps(s, h, i);
    ListCount(s, h);
    hide Tiled, Filed, Represents, DropBlocks, FlFromBlocks, DroppedHeaders, SameCover;
    var s0 := Moved(s, s.chunks[h].n * HBLKSIZE);
    assert InvExcept(s0, 0, 0) by { MovedInv(s, s.chunks[h].n * HBLKSIZE); }
    TakeKeeps(s0, h, i, 0, 0);
    DropAfterTake(s.chunks, h, s.chunks[h].n, s.chunks[h].(use := Taken));
    DropRepresents(t, u, heads, bytes, Take(s0, h, i), Drop(s, h, i), h);
  }

  lemma MovedInv(s: Heap, bytes: nat)
    requires Inv(s)
    ensures InvExcept(Moved(s, bytes), 0, 0)
  {
  }

  lemma TickReady(t: Index, heads: seq<nat>, bytes: seq<int>, s: Heap, h: nat)
    requires Represents(t, heads, bytes, s) && Inv(s) && IsFree(s, h)
    ensures Represents(t, heads, bytes, Tick(s)) && Inv(Tick(s)) && IsFree(Tick(s), h)
  {
    BytesStay(s, Tick(s));
    hide Records, LinkedLists;
  }

  lemma HeadOfList(t: Index, heads: seq<nat>, bytes: seq<int>, s: Heap, req: Request, i: nat)
    requires Represents(t, heads, bytes, s) && Ready(s, req, i)
    ensures i < |heads| && heads[i] == Get(ListOf(s, i), 0)
  {
    hide Records, Linked;
  }

  /** A block number met on the walk is the candidate; the links lead to its neighbours. */
  lemma AtCandidate(t: Index, heads: seq<nat>, bytes: seq<int>, s: Heap, req: Request, i: nat, k: nat)
    requires Represents(t, heads, bytes, s) && Ready(s, req, i) && Get(ListOf(s, i), k) != 0
    ensures At(s, req, i, k) && ChunkAt(s, i, k) == Get(ListOf(s, i), k)
    ensures var h, l := ChunkAt(s, i, k), ListOf(s, i);
      && IsHeader(t, h) && t[h].hdr.next == Get(l, k + 1) && (t[h].hdr.prev == 0 <==> k == 0)
      && t[h].hdr.prev == Get(l, k - 1)
  {
    CandidateHeader(t, heads, bytes, s, req, i, k);
    hide InvExcept, Represents;
  }

  lemma FindUnfolds(s: Heap, env: Env, req: Request, i: nat, split: MaySplit, k: nat)
    requires At(s, req, i, k)
    ensures match Search.Verdict(s, env, req, i, split, k)
      case Skip => Find(s, env, req, i, split, k) == Find(s, env, req, i, split, k + 1)
      case TakeFrom(m) => Find(s, env, req, i, split, k) == Outcome(s, ChunkAt(s, i, k), m)
      case Exhausted => Find(s, env, req, i, split, k) == Find(Onward(s, req, i, k), env, req, i, split, After(s, k))
  {
    hide InvExcept, Search.Verdict;
  }

  lemma NthIs(s: Heap, t: Heap, env: Env, req: Request, i: nat, split: MaySplit, k: nat)
    requires Ready(s, req, i) && At(t, req, i, k) && Search.Verdict(t, env, req, i, split, k).TakeFrom?
    requires var h, m := ChunkAt(t, i, k), Search.Verdict(t, env, req, i, split, k).m;
      Find(s, env, req, i, split, 0) == Outcome(t, h, m)
    ensures var h, m := ChunkAt(t, i, k), Search.Verdict(t, env, req, i, split, k).m;
      && m > 0 && Placeable(t, req, h, m, i) && |t.lists| == N_HBLK_FLS + 1
      && Nth(s, env, req, i, split) == (Commit(t, req, h, m, i), m)
      && (Overruns(s, env, req, i, split) <==> m == h + t.chunks[h].n)
  {
    assert |t.lists| == N_HBLK_FLS + 1;
    hide InvExcept, Search.Verdict, Commit, Find;
  }

  lemma NthSame(s: Heap, t: Heap, env: Env, req: Request, i: nat, split: MaySplit)
    requires Ready(s, req, i) && Ready(t, req, i)
    requires Find(s, env, req, i, split, 0) == Find(t, env, req, i, split, 0)
    ensures Nth(s, env, req, i, split) == Nth(t, env, req, i, split)
    ensures Overruns(s, env, req, i, split) <==> Overruns(t, env, req, i, split)
  {
    hide InvExcept, Commit, Find;
  }

  lemma NothingFound(s: Heap, t: Heap, env: Env, req: Request, i: nat, split: MaySplit, k: nat)
    requires Ready(s, req, i) && Ready(t, req, i) && Get(ListOf(t, i), k) == 0
    requires Find(t, env, req, i, split, k) == Find(s, env, req, i, split, 0)
    ensures Nth(s, env, req, i, split) == (t, 0) && !Overruns(s, env, req, i, split)
  {
    if k < |ListOf(t, i)| {
      StandsOnFree(t, i, k);
    }
    hide InvExcept, Commit, Search.Verdict;
  }

  /** After a drop the chunk before the dropped one leads to the dropped one's successor. */
  lemma AfterDrop(t: Index, heads: seq<nat>, bytes: seq<int>, s: Heap, r: Heap, req: Request, i: nat, k: nat)
    requires At(s, req, i, k) && r == Onward(s, req, i, k) && After(s, k) == k > 0
    requires Represents(t, heads, bytes, r)
    ensures Get(ListOf(s, i), k - 1) != 0 && IsHeader(t, Get(ListOf(s, i), k - 1))
    ensures t[Get(ListOf(s, i), k - 1)].hdr.next == Get(ListOf(r, i), k)
    ensures |ListOf(r, i)| < |ListOf(s, i)|
  {
    var l := s.lists[i];
    StandsOnFree(s, i, k - 1);
    PositionUnique(l, k);
    assert ListOf(r, i) == DelAt(l, k) by { ShedListIs(s, req, i, k); }
    assert LinkedAt(t, r.lists[i], k - 1);
    hide InvExcept, Records, FlFromBlocks;
  }

  lemma ShedListIs(s: Heap, req: Request, i: nat, k: nat)
    requires At(s, req, i, k)
    ensures ListOf(Onward(s, req, i, k), i) == if After(s, k) == k then DelAt(s.lists[i], k) else s.lists[i]
  {
    PositionUnique(s.lists[i], k);
    hide InvExcept, FlFromBlocks, DropBlocks, ObjSzToBlocks;
  }

  lemma ListKept(s: Heap, req: Request, i: nat, k: nat)
    requires At(s, req, i, k) && After(s, k) != k
    ensures ListOf(Onward(s, req, i, k), i) == ListOf(s, i)
  {
    ShedListIs(s, req, i, k);
  }

  lemma BytesAre(t: Index, heads: seq<nat>, bytes: seq<int>, s: Heap)
    requires Represents(t, heads, bytes, s) && Inv(s)
    ensures bytes == ListBytes(s) && |bytes| == N_HBLK_FLS + 1
  {
  }

  lemma ListsCounted(t: Index, heads: seq<nat>, bytes: seq<int>, s: Heap)
    requires Represents(t, heads, bytes, s) && Inv(s)
    ensures |heads| == N_HBLK_FLS + 1 == |ListBytes(s)|
    ensures forall i :: 0 <= i <= N_HBLK_FLS ==> heads[i] == Get(ListOf(s, i), 0)
    ensures forall i :: 0 <= i <= N_HBLK_FLS ==> ListBytes(s)[i] == BytesOn(s.chunks, ListOf(s, i))
  {
    hide Records, Linked, Tiled, Filed;
  }

  /** On the walk over list i, h is the chunk at position k and leads to the next. */
  lemma OnList(t: Index, heads: seq<nat>, bytes: seq<int>, s: Heap, i: nat, k: nat)
    requires Represents(t, heads, bytes, s) && Inv(s) && i <= N_HBLK_FLS && Get(ListOf(s, i), k) != 0
    ensures Stands(s, i, k) && ChunkAt(s, i, k) == Get(ListOf(s, i), k)
    ensures var h := ChunkAt(s, i, k);
      && IsHeader(t, h) && t[h].hdr.sz == s.chunks[h].n * HBLKSIZE && t[h].hdr.next == Get(ListOf(s, i), k + 1)
      && t[h].hdr.unmapped == s.chunks[h].core.unmapped
  {
    assert LinkedAt(t, s.lists[i], k);
    StandsOnFree(s, i, k);
    FreeHeaderSize(t, heads, bytes, s, ChunkAt(s, i, k));
    assert Tagged(s.chunks[ChunkAt(s, i, k)]);
    hide InvExcept, LinkedLists, Insides, ForwardsInside;
  }

  lemma EndOfList(s: Heap, i: nat, k: nat)
    requires Inv(s) && i <= N_HBLK_FLS && k <= |ListOf(s, i)| && Get(ListOf(s, i), k) == 0
    ensures k == |ListOf(s, i)|
  {
    if k < |ListOf(s, i)| {
      StandsOnFree(s, i, k);
    }
  }

  lemma HeadIs(t: Index, heads: seq<nat>, bytes: seq<int>, s: Heap, i: nat)
    requires Represents(t, heads, bytes, s) && Inv(s) && i <= N_HBLK_FLS
    ensures i < |heads| && heads[i] == Get(ListOf(s, i), 0)
  {
    hide Records, Linked, Tiled, Filed;
  }

  lemma UnmapUnfolds(s: Heap, i: nat, k: nat, stale: set<nat>)
    requires Stands(s, i, k)
    ensures var t, h := UnmapOne(s, i, k, stale), ChunkAt(s, i, k);
      && UnmapList(s, i, k, stale) == UnmapList(t, i, k + 1, stale) && Inv(t) && ListOf(t, i) == ListOf(s, i)
      && t == if !s.chunks[h].core.unmapped && h in stale then SetUnmapped(s, h, true) else s
  {
    hide InvExcept, SetUnmapped;
  }

  lemma UnmapEnds(s: Heap, i: nat, k: nat, stale: set<nat>)
    requires Inv(s) && k >= |ListOf(s, i)| && i <= N_HBLK_FLS
    ensures UnmapList(s, i, k, stale) == s
  {
    hide InvExcept;
  }

  lemma PairHeaders(t: Index, heads: seq<nat>, bytes: seq<int>, s: Heap, h: nat)
    requires Represents(t, heads, bytes, s) && Inv(s) && CanMerge(s, h)
    ensures var g := h + s.chunks[h].n;
      && IsHeader(t, h) && t[h].hdr.sz == s.chunks[h].n * HBLKSIZE && t[h].hdr.unmapped == s.chunks[h].core.unmapped
      && IsHeader(t, g) && t[g].hdr.sz == s.chunks[g].n * HBLKSIZE && t[g].hdr.unmapped == s.chunks[g].core.unmapped
  {
    assert Tagged(s.chunks[h]) && Tagged(s.chunks[h + s.chunks[h].n]);
    hide Tiled, Filed, LinkedLists, Insides, ForwardsInside;
  }

  lemma ShiftRepresents(t: Index, heads: seq<nat>, bytes: seq<int>, s: Heap, h: nat, u: bool)
    requires Represents(t, heads, bytes, s) && h in s.chunks
    ensures Represents(t, heads, bytes, Shift(s, h, u))
  {
    BytesStay(s, Shift(s, h, u));
    hide Records, LinkedLists;
  }

  /** What holds between the later steps of one merge. */
  lemma LateSteps(s: Heap, h: nat, g: nat)
    requires Inv(s) && Neighbours(s, h, g, g) && s.chunks[h].core.sz == s.chunks[h].n * HBLKSIZE
    ensures |s.lists| == N_HBLK_FLS + 1
    ensures var s3 := Absorb(s, g); Inv(s3) && IsTaken(s3, h) && IsTaken(s3, g) && g == h + s3.chunks[h].n
    ensures var s4 := Join(Absorb(s, g), h, g);
      InvExcept(s4, 0, 0) && IsTaken(s4, h) && s4.chunks[h].core.sz == s4.chunks[h].n * HBLKSIZE
  {
    assert Tagged(s.chunks[g]);
    hide Tiled, Filed, FlFromBlocks, SameCover, Weigh;
    TakeNeighbour(s, h, g, h, g);
    AbsorbInv(s, h, g, g);
  }

  lemma MergeUnfolds(s: Heap, i: nat, k: nat)
    requires Stands(s, i, k) && Settled(s.chunks)
    ensures var h := ChunkAt(s, i, k);
      if CanMerge(s, h) then
        && Pair(s, h, i) && s.chunks[h].n > 0 && |s.lists| == N_HBLK_FLS + 1
        && var t := MergePair(s, h, i);
          Inv(t) && |t.chunks| < |s.chunks| && Settled(t.chunks) && MergeList(s, i, k) == MergeList(t, i, 0)
      else MergeList(s, i, k) == MergeList(s, i, k + 1)
  {
    hide InvExcept, MergePair, SameCover, Weigh, FlFromBlocks;
    var h := ChunkAt(s, i, k);
    if CanMerge(s, h) {
      PairShape(s, h, i);
      assert MergedTo(s, MergeAt(s, i, k), h);
    }
  }

  lemma MergeEnds(s: Heap, i: nat, k: nat)
    requires Inv(s) && k >= |ListOf(s, i)| && i <= N_HBLK_FLS
    ensures MergeList(s, i, k) == s
  {
    hide InvExcept;
  }

  /** What follows a free chunk in the index tells whether the two can merge. */
  lemma SuccessorEntry(t: Index, heads: seq<nat>, bytes: seq<int>, s: Heap, h: nat)
    requires Represents(t, heads, bytes, s) && Inv(s) && Settled(s.chunks) && IsFree(s, h)
    ensures IsHeader(t, h) && t[h].hdr.sz / HBLKSIZE == s.chunks[h].n
    ensures h + s.chunks[h].n in t ==> IsHeader(t, h + s.chunks[h].n)
    ensures CanMerge(s, h) <==> h + s.chunks[h].n in t && t[h + s.chunks[h].n].hdr.free
                                && PositiveSigned(t[h].hdr.sz + t[h + s.chunks[h].n].hdr.sz)
  {
    hide Represents, Tiled, Filed, PositiveSigned, Settled;
    ListCount(s, h);
    FreeHeaderSize(t, heads, bytes, s, h);
    var g := h + s.chunks[h].n;
    SuccessorFree(t, heads, bytes, s, g, h);
    if IsFree(s, g) {
      ListCount(s, g);
      CoalescedSizeFits(s.chunks[h].n, s.chunks[g].n);
    }
  }

  lemma SuccessorFree(t: Index, heads: seq<nat>, bytes: seq<int>, s: Heap, g: nat, h: nat)
    requires Represents(t, heads, bytes, s) && Inv(s) && Settled(s.chunks) && IsFree(s, h) && g == h + s.chunks[h].n
    ensures g in t ==> IsHeader(t, g) && (t[g].hdr.free <==> IsFree(s, g))
    ensures IsFree(s, g) ==> g in t && t[g].hdr.sz == s.chunks[g].n * HBLKSIZE
    ensures IsHeader(t, h) && t[h].hdr.sz == s.chunks[h].n * HBLKSIZE
  {
    assert Tagged(s.chunks[h]);
    hide LinkedLists, Insides;
    if g in t {
      EntryAfter(t, s, h);
      HeaderFree(t, s, g, 0);
    }
  }

  lemma NothingRepresented(heads: seq<nat>, bytes: seq<int>)
    requires |heads| == |bytes| == N_HBLK_FLS + 1
    requires forall i :: 0 <= i <= N_HBLK_FLS ==> heads[i] == 0 && bytes[i] == 0
    ensures Represents(map[], heads, bytes, EmptyHeap()) && Inv(EmptyHeap()) && Settled(EmptyHeap().chunks)
  {
    var s := EmptyHeap();
    forall i | 0 <= i <= N_HBLK_FLS
      ensures ListBytes(s)[i] == 0
    {
      assert s.lists[i] == [];
    }
    assert bytes == ListBytes(s);
  }

  /** The blocks of a chunk; inside the class `Blocks` names the class. */
  function BlockRange(h: nat, n: nat): set<nat> {
    Chunks.Blocks(h, n)
  }

  lemma SupplantReady(t: Index, heads: seq<nat>, bytes: seq<int>, s: Heap, h: nat, m: nat, i: nat, d: Hdr)
    requires Represents(t, heads, bytes, s) && Inv(s) && IsFree(s, h) && i == FlFromBlocks(s.chunks[h].n)
    requires h < m < h + s.chunks[h].n
    ensures i < |heads| == |bytes| == N_HBLK_FLS + 1 == |s.lists| && LinksLead(t, h)
    ensures t[h].hdr.sz >= (m - h) * HBLKSIZE && t[h].hdr.prev != h && t[h].hdr.next != h
    ensures Represents(Supplanted(t, h, m, d), HeadsSupplanted(t, heads, h, m, i),
                       bytes[i := bytes[i] - (m - h) * HBLKSIZE], Supplant(s, h, m, i))
    ensures var r := Supplant(s, h, m, i);
      && InvExcept(r, m, i) && IsTaken(r, h) && r.chunks[h].core.sz == r.chunks[h].n * HBLKSIZE
      && r.unmapped == s.unmapped && r.large == s.large && r.dropped == s.dropped && r.drops == s.drops
  {
    SupplantRepresents(t, heads, bytes, s, h, m, i, d);
    SupplantKeeps(s, h, m, i);
    OwnLinks(t, heads, s, h, i);
    hide InvExcept, Represents, FlFromBlocks;
  }

  /** The header writes of `GC_split_block`, in its order. */
  function SplitHeaders(u: Index, h: nat, m: nat): Index
    requires IsHeader(u, h) && IsHeader(u, m) && h < m && u[h].hdr.sz >= (m - h) * HBLKSIZE
    requires LinksLead(u, h)
  {
    var k := u[h].hdr;
    var u1 := u[m := Header(u[m].hdr.(prev := k.prev, next := k.next, sz := k.sz - (m - h) * HBLKSIZE,
                                      unmapped := false, free := true))];
    var u2 := if k.prev != 0 then SetNext(u1, k.prev, m) else u1;
    var u3 := if k.next != 0 then SetPrev(u2, k.next, m) else u2;
    u3[h := Header(u3[h].hdr.(sz := (m - h) * HBLKSIZE))]
  }

  lemma SplitSteps(t: Index, u: Index, h: nat, m: nat)
    requires IsHeader(u, m) && t == u - {m} && LinksLead(t, h) && h < m && t[h].hdr.sz >= (m - h) * HBLKSIZE
    requires t[h].hdr.prev != h && t[h].hdr.next != h
    ensures LinksLead(u, h) && u[h] == t[h]
    ensures SplitHeaders(u, h, m) == Supplanted(t, h, m, u[m].hdr)
  {
  }

  lemma OwnLinks(t: Index, heads: seq<nat>, s: Heap, h: nat, i: nat)
    requires LinkedLists(t, heads, s.lists) && Inv(s) && IsFree(s, h) && i == FlFromBlocks(s.chunks[h].n)
    ensures IsHeader(t, h) && t[h].hdr.prev != h && t[h].hdr.next != h
  {
    var l := s.lists[i];
    ListShape(s, 0, 0, i);
    NeighboursAreHeaders(t, l, IndexOf(l, h));
    hide InvExcept, Linked;
  }

  lemma FreeHeaderBytes(t: Index, heads: seq<nat>, bytes: seq<int>, s: Heap, h: nat, i: nat)
    requires Represents(t, heads, bytes, s) && InvExcept(s, h, i) && IsFree(s, h)
    ensures IsHeader(t, h) && t[h].hdr.sz == s.chunks[h].n * HBLKSIZE
    ensures |s.lists| == N_HBLK_FLS + 1 && i <= N_HBLK_FLS
  {
    assert Tagged(s.chunks[h]);
  }

  lemma CutReady(t: Index, u: Index, heads: seq<nat>, bytes: seq<int>, s: Heap, h: nat, need: nat, i: nat)
    requires InvExcept(s, h, i) && IsFree(s, h) && need < s.chunks[h].n && i < |s.lists|
    requires Represents(t, heads, bytes, Take(s, h, i))
    requires IsHeader(u, h + need) && u == t[h + need := u[h + need]]
    requires var d := u[h + need].hdr; d.sz == (s.chunks[h].n - need) * HBLKSIZE && !d.unmapped && !d.free
    ensures h in Take(s, h, i).chunks && need < Take(s, h, i).chunks[h].n
    ensures Represents(u, heads, bytes, Cut(Take(s, h, i), h, need))
    ensures var r := Cut(Take(s, h, i), h, need);
      && Inv(r) && IsTaken(r, h + need) && r.chunks[h + need].core.sz == r.chunks[h + need].n * HBLKSIZE
    ensures var q, r := Take(s, h, i), Cut(Take(s, h, i), h, need);
      && r.unmapped == q.unmapped && r.large == q.large && r.dropped == q.dropped && r.drops == q.drops
  {
    hide InvExcept, FlFromBlocks, Represents, SameCover, Cut;
    ChunkFacts(s, h, h, i);
    TakeKeeps(s, h, i, h, i);
    CutFresh(t, u, heads, bytes, Take(s, h, i), h, need);
  }

  /** The fresh header of a rest of need blocks less, or of all blocks. */
  lemma CutFresh(t: Index, u: Index, heads: seq<nat>, bytes: seq<int>, s: Heap, h: nat, need: nat)
    requires Inv(s) && IsTaken(s, h) && need < s.chunks[h].n && Represents(t, heads, bytes, s)
    requires IsHeader(u, h + need) && u == t[h + need := u[h + need]]
    requires var d := u[h + need].hdr; d.sz == (s.chunks[h].n - need) * HBLKSIZE && !d.unmapped && !d.free
    ensures Represents(u, heads, bytes, Cut(s, h, need))
    ensures var r := Cut(s, h, need);
      && Inv(r) && IsTaken(r, h + need) && r.chunks[h + need].core.sz == r.chunks[h + need].n * HBLKSIZE
      && r.unmapped == s.unmapped && r.large == s.large && r.dropped == s.dropped && r.drops == s.drops
  {
    hide InvExcept, FlFromBlocks, Represents, SameCover, CutAt, Weigh;
    if need == 0 {
      RenewRepresents(t, heads, bytes, s, h, u);
      RenewKeeps(s, h);
    } else {
      CutRepresents(t, heads, bytes, s, h, need, u);
      CutKeeps(s, h, need, 0, 0);
    }
  }

  /** A used or free chunk, or a section that was never filed. */
  predicate Freeable(k: Chunk) {
    k.use.Free? || k.use.Used?
    || (k.use.Taken? && k.core.sz == k.n * HBLKSIZE && !k.core.free && !k.core.unmapped)
  }

  lemma FreeableHeader(t: Index, heads: seq<nat>, bytes: seq<int>, s: Heap, h: nat)
    requires Represents(t, heads, bytes, s) && Inv(s) && h in s.chunks && Freeable(s.chunks[h])
    ensures IsHeader(t, h) && ObjSzToBlocks(t[h].hdr.sz) == s.chunks[h].n
    ensures PositiveSigned(HBLKSIZE * s.chunks[h].n) <==> s.chunks[h].n < HALF_SPACE
    ensures t[h].hdr.free <==> s.chunks[h].use.Free?
    ensures !s.chunks[h].use.Free? ==> !s.chunks[h].core.unmapped
  {
    hide InvExcept, Represents, Records;
    ChunkFacts(s, h, 0, 0);
    RecordsOf(t, heads, bytes, s);
    HeaderOf(t, s, h);
  }

  lemma SectionReady(t: Index, u: Index, heads: seq<nat>, bytes: seq<int>, s: Heap, h: nat, n: nat)
    requires Represents(t, heads, bytes, s) && Inv(s) && Settled(s.chunks) && Vacant(s, h, n)
    requires IsHeader(u, h) && u == t[h := u[h]]
    requires u[h].hdr.sz == n * HBLKSIZE && !u[h].hdr.unmapped && !u[h].hdr.free
    ensures Represents(u, heads, bytes, NewSection(s, h, n)) && Inv(NewSection(s, h, n))
    ensures SettledBut(NewSection(s, h, n).chunks, h) && Freeable(NewSection(s, h, n).chunks[h])
    ensures h !in s.chunks
  {
    SectionRepresents(t, heads, bytes, s, h, n, u);
    NewSectionKeeps(s, h, n);
    assert 0 !in s.chunks;
    hide Filed, Tiled, Represents;
  }

  lemma ReleaseReady(s: Heap, h: nat)
    requires Inv(s) && Releasable(s, h) && SettledBut(s.chunks, h)
    ensures var t := Release(s, h);
      && Inv(t) && ReadyToFile(t.chunks, h) && SettledBut(t.chunks, h)
      && FreeBefore(t.chunks, h) == FreeBefore(s.chunks, h)
  {
    ReleaseKeeps(s, h);
    var t, p := Release(s, h), FreeBefore(s.chunks, h);
    if p != 0 {
      FreeBeforeUnique(t.chunks, p, p, h);
    } else if FreeBefore(t.chunks, h) != 0 {
      assert EndsAt(s.chunks, FreeBefore(t.chunks, h), h);
    }
  }

  lemma MergedUpReady(s: Heap, h: nat)
    requires Inv(s) && Releasable(s, h) && SettledBut(s.chunks, h)
    ensures var t, p := MergedUp(s, h), FreeBefore(s.chunks, h);
      && t == AbsorbNext(Release(s, h), h) && Inv(t) && ReadyToFile(t.chunks, h) && SettledBut(t.chunks, h)
      && (p != 0 ==> EndsAt(t.chunks, p, h))
  {
    MergedUpResult(s, h);
    FreeBeforeStays(s, h);
    hide InvExcept, SameCover, Weigh;
  }

  lemma MergedReady(s: Heap, h: nat)
    requires Inv(s) && Releasable(s, h) && !s.chunks[h].core.unmapped
    ensures var t, lo, p := Merged(s, h), FreedFrom(s, h), FreeBefore(s.chunks, h);
      && MergedUp(s, h) == AbsorbNext(Release(s, h), h)
      && lo == Survivor(MergedUp(s, h), h, p) && t == AbsorbPrev(MergedUp(s, h), h, p)
      && InvExcept(t, 0, 0) && InvExcept(Credit(t, s.chunks[h].n * HBLKSIZE), 0, 0) && ReadyToFile(t.chunks, lo)
  {
    MergedResult(s, h);
  }

  lemma CreditRepresents(t: Index, heads: seq<nat>, bytes: seq<int>, s: Heap, v: int)
    requires Represents(t, heads, bytes, s)
    ensures Represents(t, heads, bytes, Credit(s, v))
  {
    BytesStay(s, Credit(s, v));
    hide Records, LinkedLists;
  }

  lemma FreedInv(s: Heap, h: nat)
    requires Inv(s) && Releasable(s, h) && !s.chunks[h].core.unmapped
    ensures Inv(Freeing.FreeHblk(s, h))
    ensures Freeing.FreeHblk(s, h) == Push(Credit(Merged(s, h), s.chunks[h].n * HBLKSIZE), FreedFrom(s, h))
  {
    FreeResult(s, h);
  }

  /** What follows a chunk in the index is absent or a header, and tells whether it can be merged. */
  lemma NextEntry(t: Index, heads: seq<nat>, bytes: seq<int>, s: Heap, h: nat)
    requires Represents(t, heads, bytes, s) && Inv(s) && ReadyToFile(s.chunks, h) && SettledBut(s.chunks, h)
    ensures |s.lists| == N_HBLK_FLS + 1 && s.chunks[h].n > 0
    ensures IsHeader(t, h) && t[h].hdr.sz / HBLKSIZE == s.chunks[h].n
    ensures var g := h + s.chunks[h].n;
      && (g in t ==> IsHeader(t, g) && g in s.chunks && (t[g].hdr.free <==> IsFree(s, g)))
      && (g in t && IsFree(s, g) ==>
            (Mergeable(s, h, g) <==> !t[g].hdr.unmapped && PositiveSigned(t[h].hdr.sz + t[g].hdr.sz)))
      && (g !in t ==> !IsFree(s, g))
  {
    hide InvExcept, Represents, Records, SettledBut, PositiveSigned;
    var g := h + s.chunks[h].n;
    ChunkFacts(s, h, 0, 0);
    RecordsOf(t, heads, bytes, s);
    HeaderOf(t, s, h);
    if g in t {
      EntryAfter(t, s, h);
      HeaderFree(t, s, g, h);
      HeaderOf(t, s, g);
      if IsFree(s, g) {
        ChunkFacts(s, g, 0, 0);
        CoalescedSizeFits(s.chunks[h].n, s.chunks[g].n);
      }
    } else if g in s.chunks {
      HeaderOf(t, s, g);
    }
  }

  lemma RecordsOf(t: Index, heads: seq<nat>, bytes: seq<int>, s: Heap)
    requires Represents(t, heads, bytes, s)
    ensures Records(t, s.chunks)
  {
  }

  lemma HeaderOf(t: Index, s: Heap, h: nat)
    requires Records(t, s.chunks) && h in s.chunks
    ensures IsHeader(t, h) && HeaderMatches(t[h].hdr, s.chunks[h])
  {
    hide Insides, ForwardsInside;
  }

  lemma ListCount(s: Heap, h: nat)
    requires Inv(s) && h in s.chunks
    ensures |s.lists| == N_HBLK_FLS + 1 && h > 0 && s.chunks[h].n > 0
  {
  }

  lemma EntryAfter(t: Index, s: Heap, h: nat)
    requires Records(t, s.chunks) && Inv(s) && h in s.chunks && h + s.chunks[h].n in t
    ensures IsHeader(t, h + s.chunks[h].n)
  {
    var g := h + s.chunks[h].n;
    if t[g].Forward? {
      assert Covered(s.chunks, g);
      var f :| f in s.chunks && f <= g < f + s.chunks[f].n;
      assert f == g;
    }
  }

  lemma PrevEntry(t: Index, heads: seq<nat>, bytes: seq<int>, s: Heap, h: nat, p: nat)
    requires Represents(t, heads, bytes, s) && Inv(s) && ReadyToFile(s.chunks, h) && EndsAt(s.chunks, p, h)
    ensures IsHeader(t, h) && IsHeader(t, p) && h != p && |s.lists| == N_HBLK_FLS + 1
    ensures Mergeable(s, h, p) <==> !t[p].hdr.unmapped && PositiveSigned(t[h].hdr.sz + t[p].hdr.sz)
  {
    assert Tagged(s.chunks[p]);
    CoalescedSizeFits(s.chunks[h].n, s.chunks[p].n);
  }

  lemma FreeHeaderSize(t: Index, heads: seq<nat>, bytes: seq<int>, s: Heap, h: nat)
    requires Represents(t, heads, bytes, s) && Inv(s) && IsFree(s, h)
    ensures IsHeader(t, h) && t[h].hdr.sz / HBLKSIZE == s.chunks[h].n && h > 0
  {
    assert Tagged(s.chunks[h]);
  }

  lemma TakeNeighbour(s: Heap, lo: nat, hi: nat, h: nat, g: nat)
    requires Inv(s) && IsTaken(s, h) && IsFree(s, g) && lo in s.chunks && hi == lo + s.chunks[lo].n
    requires (lo == h && hi == g) || (lo == g && hi == h)
    ensures |s.lists| == N_HBLK_FLS + 1
    ensures var t := Absorb(s, g); Inv(t) && IsTaken(t, lo) && IsTaken(t, hi) && hi == lo + t.chunks[lo].n
  {
    assert g != 0;
    hide Filed, Tiled, Tagged, FlFromBlocks;
    TakeKeeps(s, g, FlFromBlocks(s.chunks[g].n), 0, 0);
  }

  lemma JoinCounters(s: Heap, h: nat, g: nat)
    requires h in s.chunks && g in s.chunks
    ensures var t := Join(s, h, g);
      t.unmapped == s.unmapped && t.large == s.large && t.dropped == s.dropped && t.drops == s.drops
  {
  }

  /** Blocks p to h - 1 lie in one used chunk that ends before h. */
  ghost predicate WithinUsed(s: Heap, p: nat, h: nat) {
    exists o :: o in s.chunks && HasCounts(s.chunks[o]) && o <= p < h <= o + s.chunks[o].n
  }

  /** A forwarding count leads back inside the same chunk, over blocks without headers. */
  lemma JumpStaysInside(t: Index, s: Heap, j: nat)
    requires Records(t, s.chunks) && Inv(s) && j in t && t[j].Forward?
    ensures 0 < t[j].jump <= j
    ensures forall b :: j - t[j].jump < b <= j ==> !IsHeader(t, b)
    ensures forall h :: h in s.chunks && j < h && (j == h - 1 || WithinUsed(s, j, h)) ==>
              WithinUsed(s, j - t[j].jump, h)
  {
    assert Covered(s.chunks, j);
    var o :| o in s.chunks && o <= j < o + s.chunks[o].n;
    assert o != j && InnerEntry(t, s.chunks[o], o, j);
    hide Filed;
    assert t[j].jump <= j - o;
    forall b | j - t[j].jump < b <= j
      ensures !IsHeader(t, b)
    {
      assert InnerEntry(t, s.chunks[o], o, b);
    }
    forall h | h in s.chunks && j < h && (j == h - 1 || WithinUsed(s, j, h))
      ensures WithinUsed(s, j - t[j].jump, h)
    {
      UsedAround(s, o, j, h);
      assert o <= j - t[j].jump;
    }
  }

  lemma UsedAround(s: Heap, o: nat, j: nat, h: nat)
    requires Inv(s) && o in s.chunks && o <= j < o + s.chunks[o].n && h in s.chunks && j < h
    requires j == h - 1 || WithinUsed(s, j, h)
    ensures h <= o + s.chunks[o].n
  {
  }

  /** A header met on the way back is that of the chunk ending before h. */
  lemma EndingChunk(t: Index, s: Heap, p: nat, h: nat)
    requires Records(t, s.chunks) && Inv(s) && h in s.chunks && SettledBut(s.chunks, h) && p < h && IsHeader(t, p)
    requires p == h - 1 || WithinUsed(s, p, h)
    ensures FreeBefore(s.chunks, h) == if t[p].hdr.free then p else 0
  {
    hide InvExcept, Records, FreeBefore, SettledBut, WithinUsed;
    HeaderFree(t, s, p, h);
    EndsBefore(s, p, h);
    ChunksTiled(s);
    if IsFree(s, p) {
      FreeBeforeUnique(s.chunks, p, p, h);
    } else {
      OtherNotFree(s, p, h);
    }
  }

  /** The chunk p next to h, or around the same used blocks, ends where h starts. */
  lemma EndsBefore(s: Heap, p: nat, h: nat)
    requires Inv(s) && p in s.chunks && h in s.chunks && p < h && (p == h - 1 || WithinUsed(s, p, h))
    ensures p + s.chunks[p].n == h
  {
    hide Filed, Tagged;
  }

  lemma OtherNotFree(s: Heap, p: nat, h: nat)
    requires Inv(s) && p in s.chunks && p + s.chunks[p].n == h && !IsFree(s, p)
    ensures FreeBefore(s.chunks, h) == 0
  {
    hide Filed, Tagged, FreeBefore;
  }

  /** The last header before h, when the block before h has no entry. */
  lemma EndingBefore(t: Index, s: Heap, p: nat, h: nat)
    requires Records(t, s.chunks) && Inv(s) && h in s.chunks && SettledBut(s.chunks, h) && p < h
    requires p != 0 ==> IsHeader(t, p)
    requires forall b :: p < b < h ==> !IsHeader(t, b)
    ensures FreeBefore(s.chunks, h) ==
              if p != 0 && t[p].hdr.free && p * HBLKSIZE + t[p].hdr.sz == h * HBLKSIZE then p else 0
  {
    var q := FreeBefore(s.chunks, h);
    if q != 0 {
      assert IsHeader(t, q) && q <= p;
    }
    if p != 0 {
      HeaderFree(t, s, p, h);
      if IsFree(s, p) && p + s.chunks[p].n == h {
        FreeBeforeUnique(s.chunks, p, p, h);
      }
    }
  }

  lemma HeaderFree(t: Index, s: Heap, p: nat, h: nat)
    requires Records(t, s.chunks) && Inv(s) && IsHeader(t, p) && SettledBut(s.chunks, h) && p != h
    ensures p in s.chunks && p > 0
    ensures t[p].hdr.free <==> s.chunks[p].use.Free?
    ensures s.chunks[p].use.Free? ==> t[p].hdr.sz == s.chunks[p].n * HBLKSIZE
  {
    assert Tagged(s.chunks[p]);
  }

  lemma TakeCounters(s: Heap, h: nat, i: nat)
    requires h in s.chunks && i < |s.lists|
    ensures var t := Take(s, h, i);
      t.unmapped == s.unmapped && t.large == s.large && t.dropped == s.dropped && t.drops == s.drops
  {
  }

  lemma PushCounters(s: Heap, h: nat)
    requires h in s.chunks && |s.lists| == N_HBLK_FLS + 1
    ensures var t := Push(s, h);
      t.unmapped == s.unmapped && t.large == s.large && t.dropped == s.dropped && t.drops == s.drops
  {
  }
}
