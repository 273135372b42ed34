/** Header and forwarding-count changes, on the representation. */
module IndexChanges {
  import opened Words
  import opened FreeListIndex
  import opened Sequences
  import opened Chunks
  import opened Freeing
  import opened Allocation
  import opened Allocator
  import opened HeaderIndex
  import opened Totals

  /** Header b keeps its links. */
  predicate KeepsLinks(t: Index, u: Index, b: nat) {
    IsHeader(t, b) && IsHeader(u, b) && u[b].hdr.prev == t[b].hdr.prev && u[b].hdr.next == t[b].hdr.next
  }

  /** The free chunks of s keep their links in u and their sizes in r. */
  ghost predicate ListsUndisturbed(t: Index, u: Index, s: Heap, r: Heap) {
    && r.lists == s.lists
    && (forall f :: IsFree(s, f) ==> KeepsLinks(t, u, f) && f in r.chunks && r.chunks[f].n == s.chunks[f].n)
  }

  lemma ListsStay(t: Index, u: Index, heads: seq<nat>, bytes: seq<int>, s: Heap, r: Heap, x: nat, w: nat)
    requires Represents(t, heads, bytes, s) && InvExcept(s, x, w) && ListsUndisturbed(t, u, s, r)
    requires Records(u, r.chunks)
    ensures Represents(u, heads, bytes, r)
  {
    hide Records, Tiled, Tagged;
    forall i | 0 <= i <= N_HBLK_FLS
      ensures Linked(u, s.lists[i]) && BytesOn(r.chunks, s.lists[i]) == BytesOn(s.chunks, s.lists[i])
    {
      ListShape(s, x, w, i);
      BytesOnSame(r.chunks, s.chunks, s.lists[i]);
      forall k | 0 <= k < |s.lists[i]|
        ensures LinkedAt(u, s.lists[i], k)
      {
        assert s.lists[i][k] in s.lists[i] && LinkedAt(t, s.lists[i], k);
      }
    }
  }

  // ---- Two neighbouring headers become one ----

  function JoinedIndex(t: Index, h: nat, g: nat): Index
    requires IsHeader(t, h) && IsHeader(t, g)
  {
    t[h := Header(t[h].hdr.(sz := t[h].hdr.sz + t[g].hdr.sz))] - {g}
  }

  lemma JoinRecords(t: Index, s: Heap, h: nat, g: nat)
    requires Records(t, s.chunks) && IsTaken(s, h) && IsTaken(s, g) && g == h + s.chunks[h].n && Tiled(s.chunks)
    ensures IsHeader(t, h) && IsHeader(t, g) && g != h
    ensures Records(JoinedIndex(t, h, g), Join(s, h, g).chunks)
  {
    hide SameCover, Insides;
    assert CutAt(Join(s, h, g).chunks, s.chunks, h, g);
    CutCovers(Join(s, h, g).chunks, s.chunks, h, g);
    JoinHeads(t, s, h, g);
    JoinInsides(t, s, h, g);
    ForwardsStay(t, JoinedIndex(t, h, g), s.chunks, Join(s, h, g).chunks);
  }

  lemma JoinHeads(t: Index, s: Heap, h: nat, g: nat)
    requires Heads(t, s.chunks) && IsTaken(s, h) && IsTaken(s, g) && g != h
    ensures Heads(JoinedIndex(t, h, g), Join(s, h, g).chunks)
  {
  }

  lemma JoinInsides(t: Index, s: Heap, h: nat, g: nat)
    requires Heads(t, s.chunks) && Insides(t, s.chunks) && Tiled(s.chunks)
    requires IsTaken(s, h) && IsTaken(s, g) && g == h + s.chunks[h].n && g != h
    ensures Insides(JoinedIndex(t, h, g), Join(s, h, g).chunks)
  {
    hide HeaderMatches;
    var u, c := JoinedIndex(t, h, g), Join(s, h, g).chunks;
    forall f, b: nat | f in c && f < b < f + c[f].n
      ensures InnerEntry(u, c[f], f, b)
    {
      if f == h {
        assert b < g ==> InnerEntry(t, s.chunks[h], h, b);
        assert b > g ==> InnerEntry(t, s.chunks[g], g, b);
      } else {
        assert f in s.chunks && c[f] == s.chunks[f] && b != g && b != h;
        assert InnerEntry(t, s.chunks[f], f, b);
      }
    }
  }

  lemma JoinRepresents(t: Index, heads: seq<nat>, bytes: seq<int>, s: Heap, h: nat, g: nat)
    requires Represents(t, heads, bytes, s) && Inv(s)
    requires IsTaken(s, h) && IsTaken(s, g) && g == h + s.chunks[h].n
    ensures IsHeader(t, h) && IsHeader(t, g) && g != h
    ensures Represents(JoinedIndex(t, h, g), heads, bytes, Join(s, h, g))
  {
    hide Filed, Insides, ForwardsInside, LinkedLists, ListBytes, HeaderMatches;
    JoinRecords(t, s, h, g);
    hide Join, JoinedIndex, Records;
    JoinUndisturbed(t, s, h, g);
    ListsStay(t, JoinedIndex(t, h, g), heads, bytes, s, Join(s, h, g), 0, 0);
  }

  lemma JoinUndisturbed(t: Index, s: Heap, h: nat, g: nat)
    requires Heads(t, s.chunks) && IsTaken(s, h) && IsTaken(s, g)
    ensures ListsUndisturbed(t, JoinedIndex(t, h, g), s, Join(s, h, g))
  {
  }

  // ---- A fresh header cuts a chunk in two ----

  lemma CutInsides(t: Index, u: Index, c: map<nat, Chunk>, d: map<nat, Chunk>, h: nat, m: nat)
    requires Insides(t, c) && Tiled(c) && CutAt(c, d, h, m)
    requires !HasCounts(c[h]) && !HasCounts(d[h]) && !HasCounts(d[m])
    requires forall b :: b != m ==> (b in u <==> b in t)
    requires forall b :: b in u && u[b].Forward? ==> b in t && t[b] == u[b]
    requires forall b :: b in t && t[b].Forward? && b != m ==> u[b] == t[b]
    ensures Insides(u, d)
  {
    forall f, b: nat | f in d && f < b < f + d[f].n
      ensures InnerEntry(u, d[f], f, b)
    {
      if f == m {
        assert InnerEntry(t, c[h], h, b);
      } else {
        assert f in c && b != m;
        assert InnerEntry(t, c[f], f, b);
      }
    }
  }

  /** Headers h and m of u describe the two parts of chunk h; the rest of u is t. */
  lemma CutIndexRecords(t: Index, u: Index, c: map<nat, Chunk>, d: map<nat, Chunk>, h: nat, m: nat)
    requires Records(t, c) && Tiled(c) && CutAt(c, d, h, m)
    requires !HasCounts(c[h]) && !HasCounts(d[h]) && !HasCounts(d[m])
    requires IsHeader(u, h) && IsHeader(u, m) && u == t[h := u[h]][m := u[m]]
    requires HeaderMatches(u[h].hdr, d[h]) && HeaderMatches(u[m].hdr, d[m])
    ensures Records(u, d)
  {
    hide SameCover, Insides, ForwardsInside, HeaderMatches;
    CutCovers(c, d, h, m);
    CutInsides(t, u, c, d, h, m);
    ForwardsStay(t, u, c, d);
    CutHeads(t, u, c, d, h, m);
  }

  lemma CutHeads(t: Index, u: Index, c: map<nat, Chunk>, d: map<nat, Chunk>, h: nat, m: nat)
    requires Heads(t, c) && CutAt(c, d, h, m)
    requires IsHeader(u, h) && IsHeader(u, m) && u == t[h := u[h]][m := u[m]]
    requires HeaderMatches(u[h].hdr, d[h]) && HeaderMatches(u[m].hdr, d[m])
    ensures Heads(u, d)
  {
    hide HeaderMatches;
  }

  /** The index after `GC_install_header` at m inside the taken chunk h. */
  lemma CutRecords(t: Index, s: Heap, h: nat, m: nat, u: Index)
    requires Records(t, s.chunks) && Tiled(s.chunks) && IsTaken(s, h) && 0 < m < s.chunks[h].n
    requires IsHeader(u, h + m) && u == t[h + m := u[h + m]]
    requires var d := u[h + m].hdr; d.sz == (s.chunks[h].n - m) * HBLKSIZE && !d.unmapped && !d.free
    ensures Records(u, Cut(s, h, m).chunks)
  {
    hide Insides, ForwardsInside;
    NoChunkInside(s.chunks, h, h + m);
    assert u == t[h := u[h]][h + m := u[h + m]];
    CutIndexRecords(t, u, s.chunks, Cut(s, h, m).chunks, h, h + m);
  }

  lemma CutRepresents(t: Index, heads: seq<nat>, bytes: seq<int>, s: Heap, h: nat, m: nat, u: Index)
    requires Represents(t, heads, bytes, s) && Inv(s) && IsTaken(s, h) && 0 < m < s.chunks[h].n
    requires IsHeader(u, h + m) && u == t[h + m := u[h + m]]
    requires var d := u[h + m].hdr; d.sz == (s.chunks[h].n - m) * HBLKSIZE && !d.unmapped && !d.free
    ensures Represents(u, heads, bytes, Cut(s, h, m))
  {
    hide Filed, LinkedLists, ListBytes, Insides, ForwardsInside;
    CutRecords(t, s, h, m, u);
    NoChunkInside(s.chunks, h, h + m);
    ListsStay(t, u, heads, bytes, s, Cut(s, h, m), 0, 0);
  }

  // ---- Rewriting one header ----

  /** The index with the mapping flag of h set to v. */
  function Flagged(t: Index, h: nat, v: bool): Index
    requires IsHeader(t, h)
  {
    t[h := Header(t[h].hdr.(unmapped := v))]
  }

  lemma FlaggedRepresents(t: Index, heads: seq<nat>, bytes: seq<int>, s: Heap, h: nat, v: bool, x: nat, w: nat)
    requires Represents(t, heads, bytes, s) && InvExcept(s, x, w) && h in s.chunks
    ensures IsHeader(t, h)
    ensures Represents(Flagged(t, h, v), heads, bytes, SetUnmapped(s, h, v))
  {
    hide Filed, Insides, ForwardsInside, LinkedLists, ListBytes;
    var u, r := Flagged(t, h, v), SetUnmapped(s, h, v);
    assert Rewritten(t, u, s.chunks, r.chunks, h);
    RewrittenRecords(t, u, s.chunks, r.chunks, h);
    hide Records;
    ListsStay(t, u, heads, bytes, s, r, x, w);
  }

  /** A fresh header displaces that of taken chunk h. */
  lemma RenewRepresents(t: Index, heads: seq<nat>, bytes: seq<int>, s: Heap, h: nat, u: Index)
    requires Represents(t, heads, bytes, s) && Inv(s) && IsTaken(s, h)
    requires IsHeader(u, h) && u == t[h := u[h]] && s.chunks[h].n > 0
    requires var d := u[h].hdr; d.sz == s.chunks[h].n * HBLKSIZE && !d.unmapped && !d.free
    ensures Represents(u, heads, bytes, Cut(s, h, 0))
  {
    hide InvExcept, Insides, ForwardsInside, LinkedLists, ListBytes, Rewritten;
    var r := Cut(s, h, 0);
    RenewRewrites(t, u, s, h);
    RewrittenRecords(t, u, s.chunks, r.chunks, h);
    hide Records;
    ListsStay(t, u, heads, bytes, s, r, 0, 0);
  }

  lemma RenewRewrites(t: Index, u: Index, s: Heap, h: nat)
    requires Heads(t, s.chunks) && IsTaken(s, h) && IsHeader(u, h) && u == t[h := u[h]] && s.chunks[h].n > 0
    requires var d := u[h].hdr; d.sz == s.chunks[h].n * HBLKSIZE && !d.unmapped && !d.free
    ensures Rewritten(t, u, s.chunks, Cut(s, h, 0).chunks, h)
  {
    var r := Cut(s, h, 0);
    assert r.chunks == s.chunks[h := r.chunks[h]];
  }

  /** The index with header h completed by `setup_header`. */
  function Completed(t: Index, h: nat, sz: nat, kind: nat, ignoreOffPage: bool): Index
    requires IsHeader(t, h)
  {
    t[h := Header(t[h].hdr.(sz := sz, kind := kind, ignoreOffPage := ignoreOffPage, unmapped := false, free := false))]
  }

  lemma CompletedRepresents(t: Index, heads: seq<nat>, bytes: seq<int>, s: Heap, h: nat,
                            sz: nat, kind: nat, ignoreOffPage: bool)
    requires Represents(t, heads, bytes, s) && Inv(s) && h in s.chunks && s.chunks[h].use.Counted?
    ensures IsHeader(t, h)
    ensures Represents(Completed(t, h, sz, kind, ignoreOffPage), heads, bytes, SetUp(s, h, sz, kind, ignoreOffPage))
  {
    hide Filed, Insides, ForwardsInside, LinkedLists, ListBytes;
    var u, r := Completed(t, h, sz, kind, ignoreOffPage), SetUp(s, h, sz, kind, ignoreOffPage);
    assert Rewritten(t, u, s.chunks, r.chunks, h);
    RewrittenRecords(t, u, s.chunks, r.chunks, h);
    hide Records;
    ListsStay(t, u, heads, bytes, s, r, 0, 0);
  }

  // ---- Forwarding counts ----

  /** Counts on the n - 1 blocks after h. */
  function Counts(t: Index, h: nat, n: nat): (u: Index) {
    if n <= 1 then t else Counts(t, h, n - 1)[h + n - 1 := Forward(Jump(n - 1))]
  }

  /** No entries on the n - 1 blocks after h. */
  function NoCounts(t: Index, h: nat, n: nat): (u: Index) {
    if n <= 1 then t else NoCounts(t, h, n - 1) - {h + n - 1}
  }

  /** u is t with forwarding counts on the n - 1 blocks after h. */
  ghost predicate CountsOn(t: Index, u: Index, h: nat, n: nat) {
    && (forall b: nat {:trigger b in u} :: h < b < h + n ==> b in u && u[b] == Forward(Jump(b - h)))
    && (forall b: nat {:trigger b in u} {:trigger b in t} :: !(h < b < h + n) ==> (b in u <==> b in t))
    && (forall b: nat {:trigger t[b]} {:trigger u[b]} :: !(h < b < h + n) && b in t ==> b in u && u[b] == t[b])
  }

  lemma {:induction false} CountsAt(t: Index, h: nat, n: nat)
    ensures CountsOn(t, Counts(t, h, n), h, n)
  {
    if n > 1 {
      CountsAt(t, h, n - 1);
      CountOneMore(t, Counts(t, h, n - 1), h, n);
    }
  }

  lemma CountOneMore(t: Index, u: Index, h: nat, n: nat)
    requires n > 1 && CountsOn(t, u, h, n - 1)
    ensures CountsOn(t, u[h + n - 1 := Forward(Jump(n - 1))], h, n)
  {
    assert Jump(n - 1) == Jump((h + n - 1) - h);
  }

  lemma {:induction false} NoCountsAt(t: Index, h: nat, n: nat)
    ensures var u := NoCounts(t, h, n);
      forall b: nat :: b in u <==> b in t && !(h < b < h + n)
    ensures var u := NoCounts(t, h, n);
      forall b: nat :: b in u ==> b in t && u[b] == t[b]
  {
    if n > 1 {
      NoCountsAt(t, h, n - 1);
    }
  }

  /** Taken chunk h with its forwarding counts installed. */
  function WithCounts(s: Heap, h: nat): Heap
    requires h in s.chunks
  {
    Heap(s.chunks[h := Chunk(s.chunks[h].n, Counted, s.chunks[h].core)],
         s.lists, s.unmapped, s.large, s.dropped, s.drops)
  }

  /** The counts of chunk h change; its header may, no other does. */
  ghost predicate Recounted(t: Index, u: Index, c: map<nat, Chunk>, d: map<nat, Chunk>, h: nat) {
    && h in c && h in d && d == c[h := d[h]] && d[h].n == c[h].n
    && IsHeader(t, h) && IsHeader(u, h)
    && (forall b: nat :: h < b < h + c[h].n ==> InnerEntry(u, d[h], h, b))
    && (forall b: nat {:trigger b in u} {:trigger b in t} :: !(h <= b < h + c[h].n) ==> (b in u <==> b in t))
    && (forall b: nat {:trigger u[b]} {:trigger t[b]} :: !(h <= b < h + c[h].n) && b in t ==> b in u && u[b] == t[b])
  }

  lemma RecountedInsides(t: Index, u: Index, c: map<nat, Chunk>, d: map<nat, Chunk>, h: nat)
    requires Recounted(t, u, c, d, h) && Insides(t, c) && Tiled(c)
    ensures Insides(u, d)
  {
    forall f, b: nat | f in d && f < b < f + d[f].n
      ensures InnerEntry(u, d[f], f, b)
    {
      if f != h {
        assert f in c && d[f] == c[f] && !(h <= b < h + c[h].n);
        assert InnerEntry(t, c[f], f, b);
      }
    }
  }

  lemma RecountedForwards(t: Index, u: Index, c: map<nat, Chunk>, d: map<nat, Chunk>, h: nat)
    requires Recounted(t, u, c, d, h) && ForwardsInside(t, c)
    ensures ForwardsInside(u, d)
  {
    SameSizesCover(c, d);
    forall b: nat | b in u && u[b].Forward?
      ensures Covered(d, b)
    {
      if h < b < h + c[h].n {
        assert h in d && b < h + d[h].n;
      } else {
        assert b in t && t[b].Forward?;
        assert Covered(c, b);
      }
    }
  }

  lemma RecountedHeads(t: Index, u: Index, c: map<nat, Chunk>, d: map<nat, Chunk>, h: nat)
    requires Recounted(t, u, c, d, h) && Heads(t, c) && Tiled(c) && HeaderMatches(u[h].hdr, d[h])
    ensures Heads(u, d)
  {
    forall f | f in d
      ensures IsHeader(u, f) && HeaderMatches(u[f].hdr, d[f])
    {
      assert f in c && (f != h ==> !(h <= f < h + c[h].n));
    }
    forall b: nat | IsHeader(u, b)
      ensures b in d
    {
      assert h < b < h + c[h].n ==> InnerEntry(u, d[h], h, b);
    }
  }

  lemma RecountedUndisturbed(t: Index, u: Index, s: Heap, r: Heap, h: nat)
    requires Heads(t, s.chunks) && Tiled(s.chunks) && h in s.chunks && !s.chunks[h].use.Free?
    requires Recounted(t, u, s.chunks, r.chunks, h) && r.lists == s.lists
    ensures ListsUndisturbed(t, u, s, r)
  {
    forall f: nat | IsFree(s, f)
      ensures KeepsLinks(t, u, f)
    {
      assert !(h <= f < h + s.chunks[h].n);
    }
  }

  lemma RecountedRepresents(t: Index, u: Index, heads: seq<nat>, bytes: seq<int>, s: Heap, r: Heap, h: nat)
    requires Represents(t, heads, bytes, s) && Inv(s) && h in s.chunks && !s.chunks[h].use.Free?
    requires Recounted(t, u, s.chunks, r.chunks, h) && HeaderMatches(u[h].hdr, r.chunks[h]) && r.lists == s.lists
    ensures Represents(u, heads, bytes, r)
  {
    hide Filed, Tiled, Tagged, LinkedLists, ListBytes, Heads, Insides, ForwardsInside, Recounted, HeaderMatches,
      ListsUndisturbed;
    RecountedInsides(t, u, s.chunks, r.chunks, h);
    RecountedForwards(t, u, s.chunks, r.chunks, h);
    RecountedHeads(t, u, s.chunks, r.chunks, h);
    RecountedUndisturbed(t, u, s, r, h);
    ListsStay(t, u, heads, bytes, s, r, 0, 0);
  }

  lemma CountsRepresents(t: Index, heads: seq<nat>, bytes: seq<int>, s: Heap, h: nat)
    requires Represents(t, heads, bytes, s) && Inv(s) && IsTaken(s, h)
    ensures Represents(Counts(t, h, s.chunks[h].n), heads, bytes, WithCounts(s, h))
  {
    hide Filed, LinkedLists, ListBytes, Insides, ForwardsInside, Counts;
    CountsAt(t, h, s.chunks[h].n);
    assert s.chunks[h].n >= 1;
    RecountedRepresents(t, Counts(t, h, s.chunks[h].n), heads, bytes, s, WithCounts(s, h), h);
  }

  /** A used or taken chunk without counts and with a free-chunk header: what `GC_freehblk` first does. */
  function ReleasedIndex(t: Index, h: nat, n: nat): Index
    requires IsHeader(NoCounts(t, h, n), h)
  {
    var u := NoCounts(t, h, n);
    u[h := Header(u[h].hdr.(sz := n * HBLKSIZE, free := true))]
  }

  lemma ReleaseRepresents(t: Index, heads: seq<nat>, bytes: seq<int>, s: Heap, h: nat)
    requires Represents(t, heads, bytes, s) && Inv(s) && Releasable(s, h)
    ensures IsHeader(NoCounts(t, h, s.chunks[h].n), h)
    ensures Represents(ReleasedIndex(t, h, s.chunks[h].n), heads, bytes, Release(s, h))
  {
    hide Filed, LinkedLists, ListBytes, Insides, ForwardsInside, NoCounts;
    NoCountsAt(t, h, s.chunks[h].n);
    assert s.chunks[h].n >= 1;
    RecountedRepresents(t, ReleasedIndex(t, h, s.chunks[h].n), heads, bytes, s, Release(s, h), h);
  }

  // ---- A new section ----

  lemma SectionRepresents(t: Index, heads: seq<nat>, bytes: seq<int>, s: Heap, h: nat, n: nat, u: Index)
    requires Represents(t, heads, bytes, s) && Inv(s) && Vacant(s, h, n)
    requires IsHeader(u, h) && u == t[h := u[h]]
    requires u[h].hdr.sz == n * HBLKSIZE && !u[h].hdr.unmapped && !u[h].hdr.free
    ensures Represents(u, heads, bytes, NewSection(s, h, n))
  {
    hide Filed, Tiled, Tagged, LinkedLists, ListBytes, Insides, ForwardsInside, Vacant;
    SectionTiles(s, h, n);
    SectionInsides(t, s, h, n, u);
    SectionForwards(t, s, h, n, u);
    ListsStay(t, u, heads, bytes, s, NewSection(s, h, n), 0, 0);
  }

  lemma SectionForwards(t: Index, s: Heap, h: nat, n: nat, u: Index)
    requires ForwardsInside(t, s.chunks) && IsHeader(u, h) && u == t[h := u[h]] && h !in s.chunks
    ensures ForwardsInside(u, NewSection(s, h, n).chunks)
  {
    var d := NewSection(s, h, n).chunks;
    forall b: nat | b in u && u[b].Forward?
      ensures Covered(d, b)
    {
      assert Covered(s.chunks, b);
      var f :| f in s.chunks && f <= b < f + s.chunks[f].n;
      assert f in d && d[f] == s.chunks[f];
    }
  }

  lemma SectionInsides(t: Index, s: Heap, h: nat, n: nat, u: Index)
    requires Records(t, s.chunks) && Tiled(s.chunks) && Vacant(s, h, n)
    requires IsHeader(u, h) && u == t[h := u[h]] && h !in s.chunks
    ensures Insides(u, NewSection(s, h, n).chunks)
  {
    hide ForwardsInside, Vacant;
    var d := NewSection(s, h, n).chunks;
    forall f, b: nat | f in d && f < b < f + d[f].n
      ensures InnerEntry(u, d[f], f, b)
    {
      if f == h {
        VacantBlock(t, s, h, n, b);
      } else {
        assert f in s.chunks && d[f] == s.chunks[f];
        assert InnerEntry(t, s.chunks[f], f, b);
        NotCovered(s, h, n, f, b);
      }
    }
  }

  lemma NotCovered(s: Heap, h: nat, n: nat, f: nat, b: nat)
    requires Vacant(s, h, n) && f in s.chunks && f <= b < f + s.chunks[f].n
    ensures b != h
  {
    assert Covered(s.chunks, b);
  }

  lemma VacantBlock(t: Index, s: Heap, h: nat, n: nat, b: nat)
    requires Records(t, s.chunks) && Tiled(s.chunks) && Vacant(s, h, n) && h <= b < h + n
    ensures b !in t
  {
    StartCovered(s.chunks, b);
  }

  lemma StartCovered(c: map<nat, Chunk>, b: nat)
    requires Tiled(c)
    ensures b in c ==> Covered(c, b)
  {
    if b in c {
      assert b <= b < b + c[b].n;
    }
  }

  // ---- A fresh header takes the place of a free chunk on its list ----

  /** t with m in place of h between h's neighbours. */
  function Relinked(t: Index, h: nat, m: nat): (u: Index)
    requires LinksLead(t, h)
  {
    var d := t[h].hdr;
    var u := if d.prev == 0 then t else SetNext(t, d.prev, m);
    if d.next == 0 then u else SetPrev(u, d.next, m)
  }

  /** `GC_split_block` before h is filed: fresh header d becomes that of the upper part m. */
  function Supplanted(t: Index, h: nat, m: nat, d: Hdr): (u: Index)
    requires LinksLead(t, h) && h < m && t[h].hdr.sz >= (m - h) * HBLKSIZE
  {
    var k := t[h].hdr;
    Relinked(t, h, m)
      [h := Header(k.(sz := (m - h) * HBLKSIZE))]
      [m := Header(d.(prev := k.prev, next := k.next, sz := k.sz - (m - h) * HBLKSIZE,
                      unmapped := false, free := true))]
  }

  lemma RelinkedLinks(t: Index, l: seq<nat>, k: nat, m: nat, d: Hdr)
    requires Linked(t, l) && NoDup(l) && 0 !in l && k < |l| && m !in l && m > l[k]
    ensures LinksLead(t, l[k])
    ensures t[l[k]].hdr.sz >= (m - l[k]) * HBLKSIZE ==> Linked(Supplanted(t, l[k], m, d), l[k := m])
    ensures SameButLinks(t, Relinked(t, l[k], m))
    ensures forall b :: b in t && b !in l ==> b in Relinked(t, l[k], m) && Relinked(t, l[k], m)[b] == t[b]
    ensures Relinked(t, l[k], m)[l[k]] == t[l[k]]
  {
    assert LinkedAt(t, l, k);
    NeighboursAreHeaders(t, l, k);
    if t[l[k]].hdr.sz >= (m - l[k]) * HBLKSIZE {
      var u, r := Supplanted(t, l[k], m, d), l[k := m];
      forall j | 0 <= j < |r|
        ensures LinkedAt(u, r, j)
      {
        assert LinkedAt(t, l, j) && l[j] in l;
      }
    }
  }

  lemma {:induction false} BytesReplaced(c: map<nat, Chunk>, d: map<nat, Chunk>, l: seq<nat>, k: nat, m: nat)
    requires k < |l| && NoDup(l) && (forall h :: h in l ==> h in c) && m in d
    requires forall h :: h in l && h != l[k] ==> h in d && d[h].n == c[h].n
    ensures BytesOn(d, l[k := m]) == BytesOn(c, l) - c[l[k]].n * HBLKSIZE + d[m].n * HBLKSIZE
  {
    assert l[0] in l && l[k] in l;
    assert forall h :: h in l[1..] ==> h in l;
    if k == 0 {
      assert l[0 := m][1..] == l[1..];
      assert forall h :: h in l[1..] ==> h != l[0];
      BytesOnSame(c, d, l[1..]);
    } else {
      assert l[k := m][1..] == l[1..][k - 1 := m];
      BytesReplaced(c, d, l[1..], k - 1, m);
    }
  }

  lemma SupplantBytes(s: Heap, h: nat, m: nat, i: nat)
    requires Inv(s) && IsFree(s, h) && i == FlFromBlocks(s.chunks[h].n) && h < m < h + s.chunks[h].n
    ensures |s.lists| == N_HBLK_FLS + 1
    ensures ListBytes(Supplant(s, h, m, i)) == ListBytes(s)[i := ListBytes(s)[i] - (m - h) * HBLKSIZE]
  {
    var r, l := Supplant(s, h, m, i), s.lists[i];
    ListShape(s, 0, 0, i);
    NoChunkInside(s.chunks, h, m);
    BytesReplaced(s.chunks, r.chunks, l, IndexOf(l, h), m);
    forall j | 0 <= j <= N_HBLK_FLS && j != i
      ensures BytesOn(r.chunks, r.lists[j]) == BytesOn(s.chunks, s.lists[j])
    {
      ListShape(s, 0, 0, j);
      OtherListsApart(s, 0, 0, i, j);
      BytesOnSame(r.chunks, s.chunks, s.lists[j]);
    }
    hide InvExcept;
    BytesChange(s, r, i, ListBytes(s)[i] - (m - h) * HBLKSIZE);
  }

  /** The list heads after m took h's place on list i. */
  function HeadsSupplanted(t: Index, heads: seq<nat>, h: nat, m: nat, i: nat): seq<nat>
    requires IsHeader(t, h) && i < |heads|
  {
    if t[h].hdr.prev == 0 then heads[i := m] else heads
  }

  lemma SupplantLinks(t: Index, heads: seq<nat>, s: Heap, h: nat, m: nat, i: nat, d: Hdr)
    requires LinkedLists(t, heads, s.lists) && Inv(s) && IsFree(s, h) && i == FlFromBlocks(s.chunks[h].n)
    requires h < m < h + s.chunks[h].n
    ensures LinksLead(t, h) && SameButLinks(t, Relinked(t, h, m)) && Relinked(t, h, m)[h] == t[h]
    ensures t[h].hdr.sz >= (m - h) * HBLKSIZE ==>
              LinkedLists(Supplanted(t, h, m, d), HeadsSupplanted(t, heads, h, m, i),
                          s.lists[i := Replace(s.lists[i], h, m)])
  {
    hide InvExcept, Linked, SameButLinks, FlFromBlocks, NoDup;
    ChunkFacts(s, h, 0, 0);
    InItsList(s, h);
    var l, k := s.lists[i], IndexOf(s.lists[i], h);
    NothingInside(s, h, m, 0, 0);
    ListShape(s, 0, 0, i);
    RelinkedLinks(t, l, k, m, d);
    NeighboursAreHeaders(t, l, k);
    if t[h].hdr.sz >= (m - h) * HBLKSIZE {
      forall j | 0 <= j <= N_HBLK_FLS && j != i
        ensures Linked(Supplanted(t, h, m, d), s.lists[j])
      {
        SupplantFarList(t, s, h, m, i, j, d);
      }
    }
  }

  lemma SupplantFarList(t: Index, s: Heap, h: nat, m: nat, i: nat, j: nat, d: Hdr)
    requires Inv(s) && i <= N_HBLK_FLS && j <= N_HBLK_FLS && i != j && h in s.lists[i] && m !in s.chunks && h < m
    requires Linked(t, s.lists[j]) && LinksLead(t, h) && SameButLinks(t, Relinked(t, h, m))
    requires t[h].hdr.sz >= (m - h) * HBLKSIZE
    requires forall b :: b in t && b !in s.lists[i] ==> Relinked(t, h, m)[b] == t[b]
    ensures Linked(Supplanted(t, h, m, d), s.lists[j])
  {
    OtherListsApart(s, 0, 0, j, i);
    ListShape(s, 0, 0, j);
    forall b | b in s.lists[j]
      ensures b in t && b != m && b != h
    {
      assert LinkedAt(t, s.lists[j], IndexOf(s.lists[j], b));
    }
    hide InvExcept, Relinked;
    UntouchedStaysLinked(t, Supplanted(t, h, m, d), s.lists[j]);
  }

  lemma SupplantRecords(t: Index, s: Heap, h: nat, m: nat, i: nat, d: Hdr)
    requires Records(t, s.chunks) && Inv(s) && IsFree(s, h) && h < m < h + s.chunks[h].n && i < |s.lists|
    requires LinksLead(t, h) && SameButLinks(t, Relinked(t, h, m)) && Relinked(t, h, m)[h] == t[h]
    ensures t[h].hdr.sz >= (m - h) * HBLKSIZE
    ensures Records(Supplanted(t, h, m, d), Supplant(s, h, m, i).chunks)
  {
    NoChunkInside(s.chunks, h, m);
    assert s.chunks[h].core.sz == s.chunks[h].n * HBLKSIZE && t[h].hdr.sz == s.chunks[h].core.sz;
    assert s.chunks[h].core.free;
    hide Filed, Insides, ForwardsInside, Relinked;
    var v, u := Relinked(t, h, m), Supplanted(t, h, m, d);
    LinksLeaveRecords(t, v, s.chunks);
    CutIndexRecords(v, u, s.chunks, Supplant(s, h, m, i).chunks, h, m);
  }

  /** After the first half of `GC_split_block` the representation is that of the heap with m in h's place. */
  lemma SupplantRepresents(t: Index, heads: seq<nat>, bytes: seq<int>, s: Heap, h: nat, m: nat, i: nat, d: Hdr)
    requires Represents(t, heads, bytes, s) && Inv(s) && IsFree(s, h) && i == FlFromBlocks(s.chunks[h].n)
    requires h < m < h + s.chunks[h].n
    ensures i < |heads| == |bytes| == N_HBLK_FLS + 1 == |s.lists| && LinksLead(t, h)
    ensures t[h].hdr.sz >= (m - h) * HBLKSIZE
    ensures Represents(Supplanted(t, h, m, d), HeadsSupplanted(t, heads, h, m, i),
                       bytes[i := bytes[i] - (m - h) * HBLKSIZE], Supplant(s, h, m, i))
  {
    hide Filed, Tiled, Tagged, Records, Linked, FlFromBlocks, Relinked, Supplanted, SameButLinks, Replace;
    SupplantLinks(t, heads, s, h, m, i, d);
    SupplantRecords(t, s, h, m, i, d);
    SupplantBytes(s, h, m, i);
  }

  // ---- A chunk dropped in single blocks ----

  /** Headers of single-block pointer-free chunks on blocks h to h + n; other header fields as in g. */
  ghost predicate DroppedHeaders(t: Index, u: Index, h: nat, n: nat) {
    && (forall b: nat {:trigger b in u} :: h <= b < h + n ==> IsHeader(u, b) && HeaderMatches(u[b].hdr, DroppedBlock()))
    && (forall b: nat {:trigger b in u} {:trigger b in t} :: !(h <= b < h + n) ==> (b in u <==> b in t))
    && (forall b: nat {:trigger u[b]} {:trigger t[b]} :: !(h <= b < h + n) && b in t ==> b in u && u[b] == t[b])
  }

  lemma DropRecords(t: Index, u: Index, s: Heap, h: nat)
    requires Records(t, s.chunks) && Inv(s) && IsTaken(s, h) && DroppedHeaders(t, u, h, s.chunks[h].n)
    ensures Records(u, DropBlocks(s.chunks, h, s.chunks[h].n))
  {
    var n := s.chunks[h].n;
    var d := DropBlocks(s.chunks, h, n);
    DropBlocksAt(s.chunks, h, n);
    DropInsides(t, u, s.chunks, d, h, n);
    DropForwards(t, u, s.chunks, d, h, n);
    DropHeads(t, u, s.chunks, d, h, n);
  }

  lemma DropInsides(t: Index, u: Index, c: map<nat, Chunk>, d: map<nat, Chunk>, h: nat, n: nat)
    requires Insides(t, c) && Tiled(c) && h in c && n == c[h].n && DroppedIn(c, d, h, n) && DroppedHeaders(t, u, h, n)
    ensures Insides(u, d)
  {
    forall f, b: nat | f in d && f < b < f + d[f].n
      ensures InnerEntry(u, d[f], f, b)
    {
      if !(h <= f < h + n) {
        assert f in c && d[f] == c[f] && !(h <= b < h + n);
        assert InnerEntry(t, c[f], f, b);
      }
    }
  }

  lemma DropForwards(t: Index, u: Index, c: map<nat, Chunk>, d: map<nat, Chunk>, h: nat, n: nat)
    requires ForwardsInside(t, c) && Tiled(c) && h in c && n == c[h].n
    requires DroppedIn(c, d, h, n) && DroppedHeaders(t, u, h, n)
    ensures ForwardsInside(u, d)
  {
    forall b: nat | b in u && u[b].Forward?
      ensures Covered(d, b)
    {
      assert !(h <= b < h + n) && b in t && u[b] == t[b];
      var f :| f in c && f <= b < f + c[f].n;
      assert !(h <= f < h + n);
      assert f in d && d[f] == c[f];
    }
  }

  lemma DropHeads(t: Index, u: Index, c: map<nat, Chunk>, d: map<nat, Chunk>, h: nat, n: nat)
    requires Heads(t, c) && DroppedIn(c, d, h, n) && DroppedHeaders(t, u, h, n)
    ensures Heads(u, d)
  {
    hide HeaderMatches;
  }

  /** Once the chunk is off its list, the dropped headers represent the heap after the drop. */
  lemma DropRepresents(t: Index, u: Index, heads: seq<nat>, bytes: seq<int>, s: Heap, r: Heap, h: nat)
    requires Represents(t, heads, bytes, s) && Inv(s) && IsTaken(s, h) && DroppedHeaders(t, u, h, s.chunks[h].n)
    requires r.lists == s.lists && r.chunks == DropBlocks(s.chunks, h, s.chunks[h].n)
    ensures Represents(u, heads, bytes, r)
  {
    hide Filed, LinkedLists, ListBytes, Insides, ForwardsInside, DropBlocks;
    DropRecords(t, u, s, h);
    DropUndisturbed(t, u, s, r, h);
    ListsStay(t, u, heads, bytes, s, r, 0, 0);
  }

  lemma DropUndisturbed(t: Index, u: Index, s: Heap, r: Heap, h: nat)
    requires Heads(t, s.chunks) && Inv(s) && IsTaken(s, h) && DroppedHeaders(t, u, h, s.chunks[h].n)
    requires r.lists == s.lists && r.chunks == DropBlocks(s.chunks, h, s.chunks[h].n)
    ensures ListsUndisturbed(t, u, s, r)
  {
    DropBlocksAt(s.chunks, h, s.chunks[h].n);
    forall f: nat | IsFree(s, f)
      ensures !(h <= f < h + s.chunks[h].n)
    {
    }
    hide InvExcept, DropBlocks;
  }

  /** Dropping a chunk after taking it off its list is dropping it from the list. */
  lemma DropAfterTake(c: map<nat, Chunk>, h: nat, n: nat, k: Chunk)
    requires n > 0 && h in c
    ensures DropBlocks(c[h := k], h, n) == DropBlocks(c, h, n)
  {
    if n == 1 {
      assert DropBlocks(c[h := k], h, 0) == c[h := k];
      assert DropBlocks(c, h, 0) == c;
    } else {
      DropAfterTake(c, h, n - 1, k);
    }
  }
}
