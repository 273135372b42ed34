/** Removing from and adding to a free list, on the representation. */
module Filing {
  import opened Words
  import opened FreeListIndex
  import opened Sequences
  import opened Chunks
  import opened Allocator
  import opened HeaderIndex
  import opened Totals

  // ---- Removing ----

  /** The list heads after h left list i. */
  function HeadsWithout(t: Index, heads: seq<nat>, h: nat, i: nat): seq<nat>
    requires IsHeader(t, h) && i < |heads|
  {
    if t[h].hdr.prev == 0 then heads[i := t[h].hdr.next] else heads
  }

  lemma TakeRecords(t: Index, u: Index, s: Heap, h: nat, i: nat)
    requires Records(t, s.chunks) && Tiled(s.chunks) && IsFree(s, h) && i < |s.lists| && SameButLinks(t, u)
    ensures Records(u, Take(s, h, i).chunks)
  {
    hide Tiled, Insides, SameButLinks;
    LinksLeaveRecords(t, u, s.chunks);
    assert SameButLinks(u, u[h := u[h]]) by {
      LinksToSelf(u);
      assert u[h := u[h]] == u;
    }
    RewrittenRecords(u, u, s.chunks, Take(s, h, i).chunks, h);
  }

  lemma LinksToSelf(t: Index)
    ensures SameButLinks(t, t)
  {
  }

  lemma TakeLinks(t: Index, heads: seq<nat>, s: Heap, h: nat, i: nat, x: nat, w: nat)
    requires LinkedLists(t, heads, s.lists) && InvExcept(s, x, w) && i <= N_HBLK_FLS && h in s.lists[i]
    ensures LinksLead(t, h)
    ensures LinkedLists(Unlinked(t, h), HeadsWithout(t, heads, h, i), s.lists[i := Del(s.lists[i], h)])
    ensures SameButLinks(t, Unlinked(t, h))
  {
    var l, k := s.lists[i], IndexOf(s.lists[i], h);
    ListShape(s, x, w, i);
    UnlinkedLinks(t, l, k);
    NeighboursAreHeaders(t, l, k);
    var u := Unlinked(t, h);
    forall j | 0 <= j <= N_HBLK_FLS && j != i
      ensures Linked(u, s.lists[j])
    {
      OtherList(t, u, s, x, w, i, j);
    }
    hide InvExcept, Linked;
  }

  lemma OtherList(t: Index, u: Index, s: Heap, x: nat, w: nat, i: nat, j: nat)
    requires InvExcept(s, x, w) && i <= N_HBLK_FLS && j <= N_HBLK_FLS && i != j
    requires Linked(t, s.lists[j]) && SameButLinks(t, u)
    requires forall b :: b in t && b !in s.lists[i] ==> u[b] == t[b]
    ensures Linked(u, s.lists[j])
  {
    OtherListsApart(s, x, w, j, i);
    forall b | b in s.lists[j]
      ensures b in t
    {
      assert LinkedAt(t, s.lists[j], IndexOf(s.lists[j], b));
    }
    hide InvExcept;
    UntouchedStaysLinked(t, u, s.lists[j]);
  }

  lemma TakeBytes(s: Heap, h: nat, i: nat, x: nat, w: nat)
    requires InvExcept(s, x, w) && i <= N_HBLK_FLS && h in s.lists[i]
    ensures h in s.chunks
    ensures ListBytes(Take(s, h, i)) == ListBytes(s)[i := ListBytes(s)[i] - s.chunks[h].n * HBLKSIZE]
  {
    ListShape(s, x, w, i);
    var t := Take(s, h, i);
    BytesWithout(s.chunks, s.lists[i], IndexOf(s.lists[i], h));
    forall j | 0 <= j <= N_HBLK_FLS
      ensures BytesOn(t.chunks, t.lists[j]) == BytesOn(s.chunks, t.lists[j])
    {
      ListShape(s, x, w, j);
      DelElements(s.lists[i], h);
      BytesOnSame(t.chunks, s.chunks, t.lists[j]);
    }
    hide InvExcept;
    BytesChange(s, t, i, ListBytes(s)[i] - s.chunks[h].n * HBLKSIZE);
  }

  /** The counts after h of the given bytes left list i. */
  function Debited(bytes: seq<int>, i: nat, sz: int): seq<int>
    requires i < |bytes|
  {
    bytes[i := bytes[i] - sz]
  }

  lemma RemovableFromList(t: Index, heads: seq<nat>, bytes: seq<int>, s: Heap, h: nat, i: nat, x: nat, w: nat)
    requires Represents(t, heads, bytes, s) && InvExcept(s, x, w)
    requires IsFree(s, h) && i == Home(h, s.chunks[h].n, x, w)
    ensures i < |heads| == |bytes| == N_HBLK_FLS + 1 == |s.lists| && LinksLead(t, h)
    ensures h in s.lists[i] && t[h].hdr.sz == s.chunks[h].n * HBLKSIZE
  {
    assert h in s.lists[i] && i <= N_HBLK_FLS && Tagged(s.chunks[h]);
    hide Filed, Tiled, Insides, Linked, FlFromBlocks, SameButLinks, Take, Unlinked;
    TakeLinks(t, heads, s, h, i, x, w);
  }

  /** After `GC_remove_from_fl_at` the representation is that of the heap without h on list i. */
  lemma TakeRepresents(t: Index, heads: seq<nat>, bytes: seq<int>, s: Heap, h: nat, i: nat, x: nat, w: nat)
    requires Represents(t, heads, bytes, s) && InvExcept(s, x, w)
    requires IsFree(s, h) && i == Home(h, s.chunks[h].n, x, w)
    ensures i < |heads| == |bytes| == N_HBLK_FLS + 1 == |s.lists| && LinksLead(t, h)
    ensures Represents(Unlinked(t, h), HeadsWithout(t, heads, h, i), Debited(bytes, i, t[h].hdr.sz), Take(s, h, i))
  {
    hide Filed, Tagged, Tiled, Records, LinkedLists, ListBytes, FlFromBlocks, SameButLinks, Unlinked;
    RemovableFromList(t, heads, bytes, s, h, i, x, w);
    TakeLinks(t, heads, s, h, i, x, w);
    TakeRecords(t, Unlinked(t, h), s, h, i);
    TakeBytes(s, h, i, x, w);
  }

  // ---- Adding ----

  /** The index after h was linked in before head and its header marked free. */
  function FiledFree(t: Index, h: nat, head: nat): (u: Index)
    requires IsHeader(t, h) && (head != 0 ==> IsHeader(t, head))
  {
    var u := Prepended(t, h, head);
    u[h := Header(u[h].hdr.(free := true))]
  }

  lemma PushRecords(t: Index, u: Index, s: Heap, h: nat)
    requires Records(t, s.chunks) && Tiled(s.chunks) && IsTaken(s, h) && |s.lists| == N_HBLK_FLS + 1
    requires IsHeader(u, h) && u[h].hdr == t[h].hdr.(free := true, prev := u[h].hdr.prev, next := u[h].hdr.next)
    requires SameButLinks(t, u[h := t[h]])
    ensures Records(u, Push(s, h).chunks)
  {
    hide Tiled, Insides, SameButLinks;
    RewrittenRecords(t, u, s.chunks, Push(s, h).chunks, h);
  }

  lemma PushLinks(t: Index, heads: seq<nat>, s: Heap, h: nat, i: nat, x: nat, w: nat)
    requires LinkedLists(t, heads, s.lists) && InvExcept(s, x, w) && i <= N_HBLK_FLS
    requires IsTaken(s, h) && IsHeader(t, h)
    ensures heads[i] != 0 ==> IsHeader(t, heads[i])
    ensures var u := FiledFree(t, h, heads[i]);
      && LinkedLists(u, heads[i := h], s.lists[i := [h] + s.lists[i]]) && IsHeader(u, h)
      && u[h].hdr == t[h].hdr.(free := true, prev := u[h].hdr.prev, next := u[h].hdr.next)
      && SameButLinks(t, u[h := t[h]])
  {
    var l := s.lists[i];
    assert h != 0;
    ListShape(s, x, w, i);
    PrependedLinks(t, l, h);
    var v, u := Prepended(t, h, heads[i]), FiledFree(t, h, heads[i]);
    MarkedFreeLinks(v, h, [h] + l);
    forall j | 0 <= j <= N_HBLK_FLS && j != i
      ensures Linked(u, s.lists[j])
    {
      ListShape(s, x, w, j);
      FarList(t, v, u, s, x, w, i, j, h);
    }
    hide InvExcept, Linked;
  }

  lemma MarkedFreeLinks(t: Index, h: nat, l: seq<nat>)
    requires IsHeader(t, h) && Linked(t, l)
    ensures Linked(t[h := Header(t[h].hdr.(free := true))], l)
  {
    var u := t[h := Header(t[h].hdr.(free := true))];
    forall k | 0 <= k < |l|
      ensures LinkedAt(u, l, k)
    {
      assert LinkedAt(t, l, k);
    }
  }

  lemma FarList(t: Index, v: Index, u: Index, s: Heap, x: nat, w: nat, i: nat, j: nat, h: nat)
    requires InvExcept(s, x, w) && i <= N_HBLK_FLS && j <= N_HBLK_FLS && i != j && IsTaken(s, h)
    requires Linked(t, s.lists[j]) && SameButLinks(t, v) && IsHeader(v, h)
    requires h in u && u == v[h := u[h]]
    requires forall b :: b in t && b !in s.lists[i] && b != h ==> v[b] == t[b]
    ensures Linked(u, s.lists[j])
  {
    OtherListsApart(s, x, w, j, i);
    ListShape(s, x, w, j);
    forall b | b in s.lists[j]
      ensures b in t && b != h
    {
      assert LinkedAt(t, s.lists[j], IndexOf(s.lists[j], b));
    }
    hide InvExcept;
    UntouchedStaysLinked(t, u, s.lists[j]);
  }

  lemma PushBytes(s: Heap, h: nat, x: nat, w: nat)
    requires InvExcept(s, x, w) && IsTaken(s, h)
    ensures |s.lists| == N_HBLK_FLS + 1
    ensures var i := FlFromBlocks(s.chunks[h].n);
      ListBytes(Push(s, h)) == ListBytes(s)[i := ListBytes(s)[i] + s.chunks[h].n * HBLKSIZE]
  {
    var t, i := Push(s, h), FlFromBlocks(s.chunks[h].n);
    forall j | 0 <= j <= N_HBLK_FLS
      ensures BytesOn(t.chunks, s.lists[j]) == BytesOn(s.chunks, s.lists[j])
    {
      ListShape(s, x, w, j);
      BytesOnSame(t.chunks, s.chunks, s.lists[j]);
    }
    assert ([h] + s.lists[i])[1..] == s.lists[i];
    hide InvExcept, FlFromBlocks;
    BytesChange(s, t, i, ListBytes(s)[i] + s.chunks[h].n * HBLKSIZE);
  }

  /** The counts after the given bytes joined list i. */
  function Credited(bytes: seq<int>, i: nat, sz: int): seq<int>
    requires i < |bytes|
  {
    bytes[i := bytes[i] + sz]
  }

  lemma AddableToList(t: Index, heads: seq<nat>, bytes: seq<int>, s: Heap, h: nat, x: nat, w: nat)
    requires Represents(t, heads, bytes, s) && InvExcept(s, x, w)
    requires IsTaken(s, h) && s.chunks[h].core.sz == s.chunks[h].n * HBLKSIZE
    ensures IsHeader(t, h) && |heads| == |bytes| == N_HBLK_FLS + 1 == |s.lists|
    ensures t[h].hdr.sz == s.chunks[h].n * HBLKSIZE && t[h].hdr.sz / HBLKSIZE == s.chunks[h].n
    ensures var i := FlFromBlocks(s.chunks[h].n); heads[i] != 0 ==> IsHeader(t, heads[i])
  {
    assert |s.lists| == N_HBLK_FLS + 1;
    hide Filed, Tagged, Tiled, Insides, Linked, FlFromBlocks, SameButLinks, FiledFree;
    PushLinks(t, heads, s, h, FlFromBlocks(s.chunks[h].n), x, w);
  }

  /** After `GC_add_to_fl` the representation is that of the heap with h filed. */
  lemma PushRepresents(t: Index, heads: seq<nat>, bytes: seq<int>, s: Heap, h: nat, x: nat, w: nat)
    requires Represents(t, heads, bytes, s) && InvExcept(s, x, w)
    requires IsTaken(s, h) && s.chunks[h].core.sz == s.chunks[h].n * HBLKSIZE
    ensures IsHeader(t, h) && |heads| == |bytes| == N_HBLK_FLS + 1 == |s.lists|
    ensures var i := FlFromBlocks(s.chunks[h].n);
      && (heads[i] != 0 ==> IsHeader(t, heads[i]))
      && Represents(FiledFree(t, h, heads[i]), heads[i := h], Credited(bytes, i, t[h].hdr.sz), Push(s, h))
  {
    hide Filed, Tagged, Tiled, Records, LinkedLists, ListBytes, FlFromBlocks, SameButLinks, FiledFree;
    AddableToList(t, heads, bytes, s, h, x, w);
    var i := FlFromBlocks(s.chunks[h].n);
    PushLinks(t, heads, s, h, i, x, w);
    PushRecords(t, FiledFree(t, h, heads[i]), s, h);
    PushBytes(s, h, x, w);
  }
}
