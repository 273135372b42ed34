/** How the header index, list heads and counters represent the chunks and the free lists. */
module HeaderIndex {
  import opened Words
  import opened FreeListIndex
  import opened Sequences
  import opened Chunks
  import opened Allocator

  const MAX_JUMP := 0xFFFF

  /** A block header; links are block numbers, 0 for none. */
  datatype Hdr = Hdr(sz: nat, unmapped: bool, free: bool, kind: nat, ignoreOffPage: bool, prev: nat, next: nat)

  /** An entry of the header index: a header, or how far back at most the chunk starts. */
  datatype Slot = Header(hdr: Hdr) | Forward(jump: nat)

  type Index = map<nat, Slot>

  function Jump(distance: nat): nat {
    if distance > MAX_JUMP then MAX_JUMP else distance
  }

  /** Forwarding counts are installed in used chunks and in those about to be. */
  predicate HasCounts(k: Chunk) {
    k.use.Used? || k.use.Counted?
  }

  predicate HeaderMatches(d: Hdr, k: Chunk) {
    && d.sz == k.core.sz && d.unmapped == k.core.unmapped && d.free == k.core.free
    && (k.use.Used? ==> d.kind == k.use.kind && d.ignoreOffPage == k.use.ignoreOffPage)
  }

  predicate IsHeader(t: Index, b: nat) {
    b in t && t[b].Header?
  }

  // ---- Headers and forwarding counts ----

  ghost predicate Heads(t: Index, c: map<nat, Chunk>) {
    && (forall h :: h in c ==> IsHeader(t, h) && HeaderMatches(t[h].hdr, c[h]))
    && (forall b :: IsHeader(t, b) ==> b in c)
  }

  /** What block b inside chunk k, which starts at h, has in the index. */
  predicate InnerEntry(t: Index, k: Chunk, h: nat, b: nat)
    requires h < b
  {
    if HasCounts(k) then b in t && t[b] == Forward(Jump(b - h)) else b !in t
  }

  ghost predicate Insides(t: Index, c: map<nat, Chunk>) {
    forall h, b: nat :: h in c && h < b < h + c[h].n ==> InnerEntry(t, c[h], h, b)
  }

  ghost predicate ForwardsInside(t: Index, c: map<nat, Chunk>) {
    forall b :: b in t && t[b].Forward? ==> Covered(c, b)
  }

  /** The index records the chunks. */
  ghost predicate Records(t: Index, c: map<nat, Chunk>) {
    Heads(t, c) && Insides(t, c) && ForwardsInside(t, c)
  }

  /** No chunk is so large that the cap on a jump matters: every count is the distance to the chunk's
      first block. */
  lemma CountsAreDistances(t: Index, s: Heap, h: nat, b: nat)
    requires Records(t, s.chunks) && Inv(s) && h in s.chunks && h < b < h + s.chunks[h].n && HasCounts(s.chunks[h])
    ensures b in t && t[b] == Forward(b - h)
  {
    hide Filed, Heads, ForwardsInside;
    ChunkFacts(s, h, 0, 0);
    assert InnerEntry(t, s.chunks[h], h, b);
  }

  // ---- Links ----

  function Get(l: seq<nat>, k: int): nat {
    if 0 <= k < |l| then l[k] else 0
  }

  predicate LinkedAt(t: Index, l: seq<nat>, k: nat)
    requires k < |l|
  {
    IsHeader(t, l[k]) && t[l[k]].hdr.prev == Get(l, k - 1) && t[l[k]].hdr.next == Get(l, k + 1)
  }

  /** The chunks of l are linked in this order, forwards and backwards. */
  ghost predicate Linked(t: Index, l: seq<nat>) {
    forall k :: 0 <= k < |l| ==> LinkedAt(t, l, k)
  }

  ghost predicate LinkedLists(t: Index, heads: seq<nat>, lists: seq<seq<nat>>) {
    && |heads| == |lists|
    && (forall i :: 0 <= i < |lists| ==> heads[i] == Get(lists[i], 0))
    && (forall i :: 0 <= i < |lists| ==> Linked(t, lists[i]))
  }

  /** The index, the list heads and the byte counts represent s. */
  ghost predicate Represents(t: Index, heads: seq<nat>, bytes: seq<int>, s: Heap) {
    Records(t, s.chunks) && LinkedLists(t, heads, s.lists) && bytes == ListBytes(s)
  }

  // ---- Changing links only ----

  function SetNext(t: Index, b: nat, v: nat): Index
    requires IsHeader(t, b)
  {
    t[b := Header(t[b].hdr.(next := v))]
  }

  function SetPrev(t: Index, b: nat, v: nat): Index
    requires IsHeader(t, b)
  {
    t[b := Header(t[b].hdr.(prev := v))]
  }

  /** t and u differ in links at most. */
  ghost predicate SameButLinks(t: Index, u: Index) {
    && (forall b :: b in t <==> b in u)
    && (forall b :: b in t && u[b] != t[b] ==>
          t[b].Header? && u[b].Header? && u[b].hdr == t[b].hdr.(prev := u[b].hdr.prev, next := u[b].hdr.next))
  }

  lemma LinksLeaveRecords(t: Index, u: Index, c: map<nat, Chunk>)
    requires SameButLinks(t, u) && Records(t, c)
    ensures Records(u, c)
  {
    hide Covered, HeaderMatches;
    LinksLeaveHeads(t, u, c);
    forall f, b: nat | f in c && f < b < f + c[f].n
      ensures InnerEntry(u, c[f], f, b)
    {
      assert InnerEntry(t, c[f], f, b);
    }
  }

  lemma LinksLeaveHeads(t: Index, u: Index, c: map<nat, Chunk>)
    requires SameButLinks(t, u) && Heads(t, c)
    ensures Heads(u, c)
  {
  }

  /** No new forwarding counts appear and the same blocks are covered. */
  lemma ForwardsStay(t: Index, u: Index, c: map<nat, Chunk>, d: map<nat, Chunk>)
    requires ForwardsInside(t, c) && SameCover(c, d)
    requires forall b :: b in u && u[b].Forward? ==> b in t && t[b].Forward?
    ensures ForwardsInside(u, d)
  {
    hide Covered;
  }

  lemma SameSizesCover(c: map<nat, Chunk>, d: map<nat, Chunk>)
    requires forall h :: h in c <==> h in d
    requires forall h :: h in c ==> d[h].n == c[h].n
    ensures SameCover(c, d)
  {
    forall b: nat
      ensures Covered(c, b) <==> Covered(d, b)
    {
      if Covered(c, b) {
        var f :| f in c && f <= b < f + c[f].n;
        assert f in d;
      }
      if Covered(d, b) {
        var f :| f in d && f <= b < f + d[f].n;
        assert f in c;
      }
    }
  }

  /** One chunk h of c is rewritten without its size or its counts; u may relink other headers. */
  ghost predicate Rewritten(t: Index, u: Index, c: map<nat, Chunk>, d: map<nat, Chunk>, h: nat) {
    && h in c && h in d && d == c[h := d[h]] && d[h].n == c[h].n && HasCounts(d[h]) == HasCounts(c[h])
    && IsHeader(t, h) && IsHeader(u, h) && HeaderMatches(u[h].hdr, d[h]) && SameButLinks(t, u[h := t[h]])
  }

  lemma ElsewhereSame(t: Index, u: Index, h: nat)
    requires IsHeader(t, h) && IsHeader(u, h) && SameButLinks(t, u[h := t[h]])
    ensures forall b :: b in t <==> b in u
    ensures forall b :: b in t ==> (t[b].Forward? <==> u[b].Forward?)
    ensures forall b :: b in t && t[b].Forward? ==> u[b] == t[b]
    ensures forall b :: b in t && t[b].Header? && b != h ==>
              u[b].hdr == t[b].hdr.(prev := u[b].hdr.prev, next := u[b].hdr.next)
  {
    var v := u[h := t[h]];
    assert forall b :: b in v <==> b in u;
    assert forall b :: b in v && b != h ==> v[b] == u[b];
  }

  lemma RewrittenHeads(t: Index, u: Index, c: map<nat, Chunk>, d: map<nat, Chunk>, h: nat)
    requires Rewritten(t, u, c, d, h) && Heads(t, c)
    ensures Heads(u, d)
  {
    ElsewhereSame(t, u, h);
    hide SameButLinks;
  }

  lemma RewrittenInsides(t: Index, u: Index, c: map<nat, Chunk>, d: map<nat, Chunk>, h: nat)
    requires Rewritten(t, u, c, d, h) && Insides(t, c)
    ensures Insides(u, d)
  {
    hide SameButLinks, HeaderMatches;
    ElsewhereSame(t, u, h);
    forall f, b: nat | f in d && f < b < f + d[f].n
      ensures InnerEntry(u, d[f], f, b)
    {
      assert InnerEntry(t, c[f], f, b);
    }
  }

  lemma RewrittenRecords(t: Index, u: Index, c: map<nat, Chunk>, d: map<nat, Chunk>, h: nat)
    requires Rewritten(t, u, c, d, h) && Records(t, c)
    ensures Records(u, d)
  {
    hide SameButLinks, HeaderMatches, Insides, ForwardsInside, SameCover, Heads;
    RewrittenHeads(t, u, c, d, h);
    RewrittenInsides(t, u, c, d, h);
    SameSizesCover(c, d);
    ElsewhereSame(t, u, h);
    ForwardsStay(t, u, c, d);
  }

  lemma UntouchedStaysLinked(t: Index, u: Index, l: seq<nat>)
    requires Linked(t, l) && forall b :: b in l ==> b in u && b in t && u[b] == t[b]
    ensures Linked(u, l)
  {
    forall k | 0 <= k < |l|
      ensures LinkedAt(u, l, k)
    {
      assert l[k] in l && LinkedAt(t, l, k);
    }
  }

  /** Block h has a header whose links lead to headers. */
  predicate LinksLead(t: Index, h: nat) {
    && IsHeader(t, h)
    && (t[h].hdr.prev != 0 ==> IsHeader(t, t[h].hdr.prev))
    && (t[h].hdr.next != 0 ==> IsHeader(t, t[h].hdr.next))
  }

  /** `GC_remove_from_fl_at`: neighbours of h are linked to each other. */
  function Unlinked(t: Index, h: nat): (u: Index)
    requires LinksLead(t, h)
  {
    var d := t[h].hdr;
    var u := if d.prev == 0 then t else SetNext(t, d.prev, d.next);
    if d.next == 0 then u else SetPrev(u, d.next, d.prev)
  }

  lemma NeighboursAreHeaders(t: Index, l: seq<nat>, k: nat)
    requires Linked(t, l) && NoDup(l) && 0 !in l && k < |l|
    ensures IsHeader(t, l[k])
    ensures var d := t[l[k]].hdr;
      && (d.prev == 0 <==> k == 0) && (d.next == 0 <==> k == |l| - 1)
      && (k > 0 ==> d.prev == l[k - 1] && IsHeader(t, d.prev))
      && (k < |l| - 1 ==> d.next == l[k + 1] && IsHeader(t, d.next))
  {
    assert LinkedAt(t, l, k);
    if k > 0 {
      assert LinkedAt(t, l, k - 1) && l[k - 1] in l;
    }
    if k < |l| - 1 {
      assert LinkedAt(t, l, k + 1) && l[k + 1] in l;
    }
  }

  lemma UnlinkedLinks(t: Index, l: seq<nat>, k: nat)
    requires Linked(t, l) && NoDup(l) && 0 !in l && k < |l|
    ensures LinksLead(t, l[k])
    ensures Linked(Unlinked(t, l[k]), DelAt(l, k))
    ensures SameButLinks(t, Unlinked(t, l[k]))
    ensures forall b :: b in t && b !in l ==> Unlinked(t, l[k])[b] == t[b]
  {
    assert LinkedAt(t, l, k);
    NeighboursAreHeaders(t, l, k);
    var u, r := Unlinked(t, l[k]), DelAt(l, k);
    forall j | 0 <= j < |r|
      ensures LinkedAt(u, r, j)
    {
      var j' := if j < k then j else j + 1;
      assert LinkedAt(t, l, j');
      assert r[j] == l[j'];
    }
  }

  /** `GC_add_to_fl`: h is linked in before the old head. */
  function Prepended(t: Index, h: nat, head: nat): (u: Index)
    requires IsHeader(t, h) && (head != 0 ==> IsHeader(t, head))
  {
    var u := t[h := Header(t[h].hdr.(prev := 0, next := head))];
    if head == 0 then u else SetPrev(u, head, h)
  }

  lemma PrependedLinks(t: Index, l: seq<nat>, h: nat)
    requires Linked(t, l) && NoDup(l) && 0 !in l && h != 0 && h !in l && IsHeader(t, h)
    ensures Get(l, 0) != 0 ==> IsHeader(t, Get(l, 0))
    ensures Linked(Prepended(t, h, Get(l, 0)), [h] + l)
    ensures SameButLinks(t, Prepended(t, h, Get(l, 0)))
    ensures forall b :: b in t && b !in l && b != h ==> Prepended(t, h, Get(l, 0))[b] == t[b]
  {
    if l != [] {
      assert LinkedAt(t, l, 0) && l[0] in l;
    }
    var u, r := Prepended(t, h, Get(l, 0)), [h] + l;
    forall j | 0 <= j < |r|
      ensures LinkedAt(u, r, j)
    {
      if j > 0 {
        assert LinkedAt(t, l, j - 1) && l[j - 1] in l;
      }
    }
  }

  // ---- Byte counts ----

  lemma {:induction false} BytesWithout(c: map<nat, Chunk>, l: seq<nat>, k: nat)
    requires k < |l| && l[k] in c
    ensures BytesOn(c, DelAt(l, k)) == BytesOn(c, l) - c[l[k]].n * HBLKSIZE
  {
    if k == 0 {
      assert DelAt(l, 0) == l[1..];
    } else {
      assert DelAt(l, k)[1..] == DelAt(l[1..], k - 1);
      BytesWithout(c, l[1..], k - 1);
    }
  }

  // ---- Lists of the heap ----

  lemma ListShape(s: Heap, x: nat, w: nat, i: nat)
    requires InvExcept(s, x, w) && i <= N_HBLK_FLS
    ensures NoDup(s.lists[i]) && 0 !in s.lists[i]
    ensures forall h :: h in s.lists[i] ==> IsFree(s, h)
  {
  }

  lemma OtherListsApart(s: Heap, x: nat, w: nat, i: nat, j: nat)
    requires InvExcept(s, x, w) && i <= N_HBLK_FLS && j <= N_HBLK_FLS && i != j
    ensures forall h :: h in s.lists[i] ==> h !in s.lists[j]
  {
  }

  /** Same chunks up to what matters for lists: sizes. */
  lemma BytesStay(s: Heap, t: Heap)
    requires |s.lists| == |t.lists|
    requires forall i :: 0 <= i < |s.lists| ==> BytesOn(t.chunks, t.lists[i]) == BytesOn(s.chunks, s.lists[i])
    ensures ListBytes(t) == ListBytes(s)
  {
  }

  lemma BytesChange(s: Heap, t: Heap, i: nat, v: int)
    requires |s.lists| == |t.lists| && i < |s.lists| && BytesOn(t.chunks, t.lists[i]) == v
    requires forall j :: 0 <= j < |s.lists| && j != i ==> BytesOn(t.chunks, t.lists[j]) == BytesOn(s.chunks, s.lists[j])
    ensures ListBytes(t) == ListBytes(s)[i := v]
  {
  }
}
