/** The per-list byte counts add up to the bytes in free chunks. */
module Totals {
  import opened Words
  import opened FreeListIndex
  import opened Sequences
  import opened Chunks
  import opened Allocator

  lemma {:induction false} BytesOnSame(c: map<nat, Chunk>, d: map<nat, Chunk>, l: seq<nat>)
    requires forall h :: h in l ==> h in c && h in d && c[h].n == d[h].n
    ensures BytesOn(c, l) == BytesOn(d, l)
  {
    if l != [] {
      assert l[0] in l;
      assert forall h :: h in l[1..] ==> h in l;
      BytesOnSame(c, d, l[1..]);
    }
  }

  /** c without the chunks of l. */
  function Strip(c: map<nat, Chunk>, l: seq<nat>): (d: map<nat, Chunk>)
    ensures forall h :: h in d <==> h in c && h !in l
    ensures forall h :: h in d ==> d[h] == c[h]
  {
    if l == [] then c
    else
      assert forall h :: h in l <==> h == l[0] || h in l[1..];
      Strip(c - {l[0]}, l[1..])
  }

  lemma {:induction false} StripWeighs(c: map<nat, Chunk>, l: seq<nat>)
    requires NoDup(l) && (forall h :: h in l ==> h in c && c[h].use.Free?)
    ensures Weigh(c, OnlyFree) * HBLKSIZE == BytesOn(c, l) + Weigh(Strip(c, l), OnlyFree) * HBLKSIZE
  {
    if l != [] {
      assert l[0] in l;
      assert forall h :: h in l[1..] ==> h in l && h != l[0];
      WeighTake(c, l[0], OnlyFree);
      StripWeighs(c - {l[0]}, l[1..]);
      BytesOnSame(c, c - {l[0]}, l[1..]);
    }
  }

  /** c is s's chunks without the free chunks on lists before i. */
  ghost predicate FromList(s: Heap, c: map<nat, Chunk>, i: nat) {
    && (forall h :: h in c ==> h in s.chunks && c[h] == s.chunks[h])
    && (forall h :: h in s.chunks ==>
          (h in c <==> !(s.chunks[h].use.Free? && FlFromBlocks(s.chunks[h].n) < i)))
  }

  lemma {:induction false} NoneFree(c: map<nat, Chunk>)
    requires forall h :: h in c ==> !c[h].use.Free?
    ensures Weigh(c, OnlyFree) == 0
    decreases |c|
  {
    if c != map[] {
      var h :| h in c;
      WeighTake(c, h, OnlyFree);
      assert |c - {h}| < |c|;
      NoneFree(c - {h});
    }
  }

  lemma OnListFrom(s: Heap, c: map<nat, Chunk>, i: nat)
    requires Inv(s) && i <= N_HBLK_FLS && FromList(s, c, i)
    ensures forall h {:trigger h in s.lists[i]} :: h in s.lists[i] ==>
              h in c && c[h].use.Free? && h in s.chunks && c[h] == s.chunks[h]
  {
    hide Tiled, Tagged, FlFromBlocks;
  }

  lemma StripFrom(s: Heap, c: map<nat, Chunk>, i: nat)
    requires Inv(s) && i <= N_HBLK_FLS && FromList(s, c, i)
    ensures FromList(s, Strip(c, s.lists[i]), i + 1)
  {
    hide Tiled, Tagged, FlFromBlocks, Strip, NoDup;
    var d := Strip(c, s.lists[i]);
    forall h | h in s.chunks
      ensures h in d <==> !(s.chunks[h].use.Free? && FlFromBlocks(s.chunks[h].n) < i + 1)
    {
      assert h in s.lists[i] <==> s.chunks[h].use.Free? && FlFromBlocks(s.chunks[h].n) == i by { OnWhichList(s, h, i); }
    }
  }

  lemma OnWhichList(s: Heap, h: nat, i: nat)
    requires Inv(s) && h in s.chunks && i <= N_HBLK_FLS
    ensures h in s.lists[i] <==> s.chunks[h].use.Free? && FlFromBlocks(s.chunks[h].n) == i
  {
    ChunkFacts(s, h, 0, 0);
    hide Tiled, Tagged, FlFromBlocks;
  }

  lemma {:induction false} SuffixTotals(s: Heap, c: map<nat, Chunk>, i: nat)
    requires Inv(s) && i <= N_HBLK_FLS + 1 && FromList(s, c, i)
    ensures SuffixBytes(ListBytes(s), i) == Weigh(c, OnlyFree) * HBLKSIZE
    decreases N_HBLK_FLS + 1 - i
  {
    if i > N_HBLK_FLS {
      NoneFree(c);
    } else {
      hide Tiled, Tagged, FlFromBlocks, Strip, FromList, Weigh;
      OnListFrom(s, c, i);
      BytesOnSame(c, s.chunks, s.lists[i]);
      StripFrom(s, c, i);
      StripWeighs(c, s.lists[i]);
      SuffixTotals(s, Strip(c, s.lists[i]), i + 1);
    }
  }

  /** All lists together hold exactly the bytes in free chunks. */
  lemma ListTotals(s: Heap)
    requires Inv(s)
    ensures SuffixBytes(ListBytes(s), 0) == FreeBlocks(s) * HBLKSIZE
  {
    SuffixTotals(s, s.chunks, 0);
  }
}
