/** The page hash tables that record false pointers, and the scan that asks
    whether a candidate block is black-listed. */
module BlackList {
  import opened Words

  const WORDSZ := 32
  const PHT_SIZE := 8192
  const PHT_ENTRIES := 0x4_0000
  const MINHINCR := 16
  const MAXHINCR := 2048

  type Word = w: nat | w < WORD
  type Table = t: seq<Word> | |t| == PHT_SIZE witness seq(PHT_SIZE, _ => 0)

  function Clear(): (t: Table)
    ensures forall i :: 0 <= i < PHT_SIZE ==> t[i] == 0
  {
    seq(PHT_SIZE, _ => 0)
  }

  // ---- Bits of a word ----

  /** `(w >> k) & 1`, shifting one place at a time. */
  predicate Bit(w: nat, k: nat) {
    if k == 0 then w % 2 == 1 else Bit(w / 2, k - 1)
  }

  /** `w | (1 << k)`. */
  function WithBit(w: nat, k: nat): (r: nat)
    ensures w <= r
  {
    if k == 0 then w / 2 * 2 + 1 else WithBit(w / 2, k - 1) * 2 + w % 2
  }

  lemma {:induction false} BitOfWithBit(w: nat, k: nat, j: nat)
    ensures Bit(WithBit(w, k), j) <==> j == k || Bit(w, j)
  {
    if k > 0 && j > 0 {
      BitOfWithBit(w / 2, k - 1, j - 1);
    }
  }

  lemma {:induction false} ZeroWordHasNoBit(k: nat)
    ensures !Bit(0, k)
  {
    if k > 0 {
      ZeroWordHasNoBit(k - 1);
    }
  }

  function Pow2(k: nat): (p: nat)
    ensures p > 0
  {
    if k == 0 then 1 else 2 * Pow2(k - 1)
  }

  lemma NibbleOfPow2(k: nat)
    ensures Pow2(k + 4) == 16 * Pow2(k)
  {
    assert Pow2(k + 4) == 2 * Pow2(k + 3) == 4 * Pow2(k + 2) == 8 * Pow2(k + 1);
  }

  lemma WordIsPow2()
    ensures Pow2(WORDSZ) == WORD
  {
    NibbleOfPow2(0); NibbleOfPow2(4); NibbleOfPow2(8); NibbleOfPow2(12);
    NibbleOfPow2(16); NibbleOfPow2(20); NibbleOfPow2(24); NibbleOfPow2(28);
  }

  /** Setting one of the low n bits stays within n bits. */
  lemma {:induction false} WithBitInRange(w: nat, k: nat, n: nat)
    requires k < n && w < Pow2(n)
    ensures WithBit(w, k) < Pow2(n)
  {
    if k > 0 {
      WithBitInRange(w / 2, k - 1, n - 1);
    }
  }

  function WordWithBit(w: Word, k: nat): Word
    requires k < WORDSZ
  {
    WordIsPow2();
    WithBitInRange(w, k, WORDSZ);
    WithBit(w, k)
  }

  // ---- Tables ----

  /** `PHT_HASH` of the block with number b. */
  function Hash(b: nat): (i: nat)
    ensures i < PHT_ENTRIES
  {
    b % PHT_ENTRIES
  }

  /** `get_pht_entry_from_index`. */
  predicate Entry(t: Table, index: nat)
    requires index < PHT_ENTRIES
  {
    Bit(t[index / WORDSZ], index % WORDSZ)
  }

  /** `set_pht_entry_from_index`. */
  function WithEntry(t: Table, index: nat): Table
    requires index < PHT_ENTRIES
  {
    t[index / WORDSZ := WordWithBit(t[index / WORDSZ], index % WORDSZ)]
  }

  lemma EntryOfWithEntry(t: Table, i: nat, j: nat)
    requires i < PHT_ENTRIES && j < PHT_ENTRIES
    ensures Entry(WithEntry(t, i), j) <==> j == i || Entry(t, j)
  {
    if j / WORDSZ == i / WORDSZ {
      BitOfWithBit(t[i / WORDSZ], i % WORDSZ, j % WORDSZ);
    }
  }

  predicate Marked(t: Table, b: nat) {
    Entry(t, Hash(b))
  }

  function Mark(t: Table, b: nat): Table {
    WithEntry(t, Hash(b))
  }

  lemma MarkedAfterMark(t: Table, b: nat, c: nat)
    ensures Marked(Mark(t, b), c) <==> Hash(c) == Hash(b) || Marked(t, c)
    ensures Hash(c) == Hash(b) <==> c % 0x4_0000 == b % 0x4_0000
  {
    EntryOfWithEntry(t, Hash(b), Hash(c));
  }

  lemma ClearHasNoMark(b: nat)
    ensures !Marked(Clear(), b)
  {
    ZeroWordHasNoBit(Hash(b) % WORDSZ);
  }

  /** Blocks that share a table word with b, up to the end of that word. */
  lemma SameWord(b: nat, d: nat)
    requires d < WORDSZ - Hash(b) % WORDSZ
    ensures Hash(b + d) == Hash(b) + d
    ensures Hash(b + d) / WORDSZ == Hash(b) / WORDSZ
  {
    var i := Hash(b);
    assert i + d < PHT_ENTRIES;
    assert b + d == PHT_ENTRIES * (b / PHT_ENTRIES) + (i + d);
  }

  // ---- What the tables say about a block ----

  /** The four tables. With interior pointers recognised everywhere the normal
      tables do not exist; they then read as clear. */
  datatype View = View(allInterior: bool, oldNormal: Table, incNormal: Table, oldStack: Table, incStack: Table)
  {
    predicate Normal(b: nat) {
      !allInterior && (Marked(oldNormal, b) || Marked(incNormal, b))
    }

    predicate Stack(b: nat) {
      Marked(oldStack, b) || Marked(incStack, b)
    }

    /** The naive test: may an object of n blocks not start at block b? */
    ghost predicate Listed(b: nat, n: nat) {
      Normal(b) || exists c :: b <= c < b + n && Stack(c)
    }
  }

  /** Blocks examined for a request of len bytes; a request below one block looks at one. */
  function Window(len: nat): (n: nat)
    ensures n >= 1
  {
    if len / HBLKSIZE == 0 then 1 else len / HBLKSIZE
  }

  lemma WindowBlocks(len: nat)
    ensures Window(len) == if len / HBLKSIZE == 0 then 1 else len / HBLKSIZE
  {
  }

  // ---- Generations ----

  datatype Op =
    | AddNormal(block: nat, validOffset: bool, noHeader: bool)
    | AddStack(block: nat, noHeader: bool)
    | Promote
    | Unpromote

  function Step(v: View, op: Op): View {
    match op
    case AddStack(b, noHeader) =>
      if noHeader || Marked(v.oldStack, b) then v.(incStack := Mark(v.incStack, b)) else v
    case AddNormal(b, validOffset, noHeader) =>
      if v.allInterior then
        if noHeader || Marked(v.oldStack, b) then v.(incStack := Mark(v.incStack, b)) else v
      else if validOffset && (noHeader || Marked(v.oldNormal, b)) then
        v.(incNormal := Mark(v.incNormal, b))
      else v
    case Promote =>
      if v.allInterior then v.(oldStack := v.incStack, incStack := Clear())
      else v.(oldStack := v.incStack, incStack := Clear(), oldNormal := v.incNormal, incNormal := Clear())
    case Unpromote =>
      if v.allInterior then v.(incStack := v.oldStack)
      else v.(incStack := v.oldStack, incNormal := v.oldNormal)
  }

  function Run(v: View, ops: seq<Op>): View
    decreases |ops|
  {
    if ops == [] then v else Run(Step(v, ops[0]), ops[1..])
  }

  /** The promotions and un-promotions of a run, in order. */
  function Turns(ops: seq<Op>): seq<Op> {
    if ops == [] then []
    else (if ops[0].Promote? || ops[0].Unpromote? then [ops[0]] else []) + Turns(ops[1..])
  }

  /** No two promotions without an un-promotion between them. */
  predicate Survives(turns: seq<Op>) {
    forall k :: 0 < k < |turns| ==> !(turns[k - 1].Promote? && turns[k].Promote?)
  }

  /** No operation sets the bucket of b. */
  predicate Quiet(ops: seq<Op>, b: nat) {
    forall op :: op in ops ==>
      match op
      case AddNormal(c, _, _) => Hash(c) != Hash(b)
      case AddStack(c, _) => Hash(c) != Hash(b)
      case _ => true
  }

  /** The mark of b in a pair of tables after the given turns. */
  predicate Seen(previous: bool, recent: bool, turns: seq<Op>) {
    if turns == [] then previous || recent
    else (if turns[0].Promote? then recent else previous) && Survives(turns)
  }

  /** A mark is lost exactly by two promotions with no un-promotion between them. Before the first
      turn both generations are seen; from then on the recent one is if that turn is a promotion,
      the old one if it is an un-promotion. */
  lemma {:induction false} MarkLifetime(v: View, ops: seq<Op>, b: nat)
    requires Quiet(ops, b)
    ensures Run(v, ops).Stack(b) <==> Seen(Marked(v.oldStack, b), Marked(v.incStack, b), Turns(ops))
    ensures Run(v, ops).Normal(b) <==>
              !v.allInterior && Seen(Marked(v.oldNormal, b), Marked(v.incNormal, b), Turns(ops))
    decreases |ops|
  {
    hide Marked, Mark, Clear;
    if ops != [] {
      var op, w, turns := ops[0], Step(v, ops[0]), Turns(ops[1..]);
      assert op in ops;
      assert forall o :: o in ops[1..] ==> o in ops;
      MarkLifetime(w, ops[1..], b);
      StepMarks(v, op, b);
      if op.Promote? || op.Unpromote? {
        assert Turns(ops) == [op] + turns;
        OneMoreTurn(op, turns);
      } else {
        assert Turns(ops) == turns;
      }
    }
  }

  lemma OneMoreTurn(op: Op, turns: seq<Op>)
    ensures Survives([op] + turns) <==>
              Survives(turns) && !(turns != [] && op.Promote? && turns[0].Promote?)
  {
    var all := [op] + turns;
    assert turns != [] ==> all[0] == op && all[1] == turns[0];
    if Survives(all) {
      forall k | 0 < k < |turns|
        ensures !(turns[k - 1].Promote? && turns[k].Promote?)
      {
        assert all[k] == turns[k - 1] && all[k + 1] == turns[k];
      }
    }
    if Survives(turns) {
      assert forall k :: 1 < k < |all| ==> all[k] == turns[k - 1];
    }
  }

  /** What one operation that does not set the bucket of b does to its marks. */
  lemma StepMarks(v: View, op: Op, b: nat)
    requires Quiet([op], b)
    ensures var w := Step(v, op);
      && w.allInterior == v.allInterior
      && Marked(w.oldStack, b) == Marked(if op.Promote? then v.incStack else v.oldStack, b)
      && (Marked(w.incStack, b) <==>
            if op.Promote? then false else Marked(if op.Unpromote? then v.oldStack else v.incStack, b))
      && (!v.allInterior ==>
            && Marked(w.oldNormal, b) == Marked(if op.Promote? then v.incNormal else v.oldNormal, b)
            && (Marked(w.incNormal, b) <==>
                  if op.Promote? then false else Marked(if op.Unpromote? then v.oldNormal else v.incNormal, b)))
  {
    hide Marked, Mark, Clear;
    assert op in [op];
    match op {
      case AddNormal(c, _, _) =>
        MarkedAfterMark(v.incStack, c, b);
        MarkedAfterMark(v.incNormal, c, b);
      case AddStack(c, _) =>
        MarkedAfterMark(v.incStack, c, b);
      case Promote =>
        ClearHasNoMark(b);
      case Unpromote =>
    }
  }

  /** A new false pointer is recorded exactly in its own bucket: that of the recent stack table if it
      comes from a stack or interior pointers are recognised everywhere, else that of the recent
      normal table, provided its offset is valid; and only if no header is there or the old
      generation has it. */
  lemma AddMarksOneBucket(v: View, b: nat, validOffset: bool, noHeader: bool, c: nat)
    ensures var w := Step(v, AddStack(b, noHeader));
      && (Marked(w.incStack, c) <==>
            Marked(v.incStack, c) || (c % 0x4_0000 == b % 0x4_0000 && (noHeader || Marked(v.oldStack, b))))
      && w == v.(incStack := w.incStack)
    ensures var w := Step(v, AddNormal(b, validOffset, noHeader));
      if v.allInterior then w == Step(v, AddStack(b, noHeader))
      else
        && (Marked(w.incNormal, c) <==>
              Marked(v.incNormal, c) ||
              (c % 0x4_0000 == b % 0x4_0000 && validOffset && (noHeader || Marked(v.oldNormal, b))))
        && w == v.(incNormal := w.incNormal)
  {
    MarkedAfterMark(v.incStack, b, c);
    MarkedAfterMark(v.incNormal, b, c);
  }

  /** Whatever sequence of promotions and un-promotions runs, no window becomes black-listed. */
  lemma {:induction false} PromotionNeverAdds(v: View, ops: seq<Op>, b: nat, n: nat)
    requires forall op :: op in ops ==> op.Promote? || op.Unpromote?
    ensures Run(v, ops).Listed(b, n) ==> v.Listed(b, n)
    decreases |ops|
  {
    if ops != [] {
      var w := Step(v, ops[0]);
      assert ops[0] in ops;
      PromotionNeverAdds(w, ops[1..], b, n);
      forall c | w.Stack(c)
        ensures v.Stack(c)
      {
        ClearHasNoMark(c);
      }
      ClearHasNoMark(b);
    }
  }

  /** Un-promotion forgets everything recorded since the last promotion. */
  lemma UnpromoteKeepsOldGeneration(v: View, b: nat)
    ensures Step(v, Unpromote).Stack(b) <==> Marked(v.oldStack, b)
    ensures Step(v, Unpromote).Normal(b) <==> !v.allInterior && Marked(v.oldNormal, b)
  {
  }

  /** Windows can only grow more black-listed with their length. */
  lemma ListedMonotone(v: View, b: nat, m: nat, n: nat)
    requires m <= n && v.Listed(b, m)
    ensures v.Listed(b, n)
  {
  }

  // ---- Statistics ----

  datatype Section = Section(start: nat, blocks: nat)

  function CountMarked(t: Table, start: nat, end: nat): (n: nat)
    ensures n <= if start < end then end - start else 0
    decreases end - start
  {
    if start >= end then 0
    else CountMarked(t, start, end - 1) + if Marked(t, end - 1) then 1 else 0
  }

  /** The marked blocks of a range. */
  ghost function MarkedIn(t: Table, start: nat, end: nat): set<nat> {
    set c | start <= c < end && Marked(t, c)
  }

  lemma {:induction false} CountIsCardinality(t: Table, start: nat, end: nat)
    ensures CountMarked(t, start, end) == |MarkedIn(t, start, end)|
    decreases end - start
  {
    hide Marked;
    if start < end {
      CountIsCardinality(t, start, end - 1);
      assert MarkedIn(t, start, end)
          == MarkedIn(t, start, end - 1) + if Marked(t, end - 1) then {end - 1} else {};
    } else {
      assert MarkedIn(t, start, end) == {};
    }
  }

  ghost predicate SameMarks(t: Table, u: Table) {
    forall b: nat :: Marked(t, b) <==> Marked(u, b)
  }

  ghost predicate SameCounts(t: Table, u: Table) {
    forall start: nat, end: nat :: CountMarked(t, start, end) == CountMarked(u, start, end)
  }

  /** Counting over one table instead of another makes no difference, for every range, exactly if
      both mark the same blocks. */
  lemma CountsTellTables(t: Table, u: Table)
    ensures SameCounts(t, u) <==> SameMarks(t, u)
  {
    hide Marked;
    if SameCounts(t, u) {
      forall b: nat
        ensures Marked(t, b) <==> Marked(u, b)
      {
        assert CountMarked(t, b, b + 1) == CountMarked(u, b, b + 1);
        CountOne(t, b);
        CountOne(u, b);
      }
    }
    if SameMarks(t, u) {
      forall start: nat, end: nat
        ensures CountMarked(t, start, end) == CountMarked(u, start, end)
      {
        CountOfSame(t, u, start, end);
      }
    }
  }

  lemma CountOne(t: Table, b: nat)
    ensures CountMarked(t, b, b + 1) == if Marked(t, b) then 1 else 0
  {
  }

  lemma {:induction false} CountOfSame(t: Table, u: Table, start: nat, end: nat)
    requires SameMarks(t, u)
    ensures CountMarked(t, start, end) == CountMarked(u, start, end)
    decreases end - start
  {
    if start < end {
      CountOfSame(t, u, start, end - 1);
    }
  }

  /** A false pointer recorded since the last promotion is in the recent table but not yet counted. */
  lemma RecentNotCounted(b: nat)
    ensures var v := Step(View(true, Clear(), Clear(), Clear(), Clear()), AddStack(b, true));
      CountMarked(v.oldStack, b, b + 1) == 0 && CountMarked(v.incStack, b, b + 1) == 1
  {
    ClearHasNoMark(b);
    MarkedAfterMark(Clear(), b, b);
    CountOne(Clear(), b);
    CountOne(Mark(Clear(), b), b);
  }

  function CountSections(t: Table, sections: seq<Section>): nat {
    if sections == [] then 0
    else
      var last := sections[|sections| - 1];
      CountSections(t, sections[..|sections| - 1]) + CountMarked(t, last.start, last.start + last.blocks)
  }

  predicate Disjoint(sections: seq<Section>) {
    forall i, j :: 0 <= i < j < |sections| ==>
      || sections[i].start + sections[i].blocks <= sections[j].start
      || sections[j].start + sections[j].blocks <= sections[i].start
  }

  ghost function MarkedInSection(t: Table, s: Section): set<nat> {
    MarkedIn(t, s.start, s.start + s.blocks)
  }

  /** The marked blocks that lie in any of the sections. */
  ghost function MarkedInAny(t: Table, sections: seq<Section>): set<nat> {
    set i, c | 0 <= i < |sections| && c in MarkedInSection(t, sections[i]) :: c
  }

  /** Over disjoint sections the total counts every marked block once. */
  lemma {:induction false} SectionsCountBlocks(t: Table, sections: seq<Section>)
    requires Disjoint(sections)
    ensures CountSections(t, sections) == |MarkedInAny(t, sections)|
  {
    hide MarkedIn, MarkedInSection, MarkedInAny, CountMarked, Disjoint;
    if sections == [] {
      NothingMarked(t);
    } else {
      var front, last := sections[..|sections| - 1], sections[|sections| - 1];
      DisjointFront(t, front, last, sections);
      SectionsCountBlocks(t, front);
      SectionCount(t, last);
      MarkedInAnyMore(t, front, last);
    }
  }

  lemma NothingMarked(t: Table)
    ensures MarkedInAny(t, []) == {}
  {
  }

  lemma SectionCount(t: Table, s: Section)
    ensures CountMarked(t, s.start, s.start + s.blocks) == |MarkedInSection(t, s)|
  {
    CountIsCardinality(t, s.start, s.start + s.blocks);
  }

  lemma DisjointFront(t: Table, front: seq<Section>, last: Section, all: seq<Section>)
    requires Disjoint(all) && |all| > 0 && front == all[..|all| - 1] && last == all[|all| - 1]
    ensures Disjoint(front) && all == front + [last]
    ensures MarkedInAny(t, front) !! MarkedInSection(t, last)
  {
    hide Marked;
    forall i, c | 0 <= i < |front| && c in MarkedInSection(t, front[i])
      ensures c !in MarkedInSection(t, last)
    {
      assert all[i] == front[i];
    }
  }

  lemma MarkedInAnyMore(t: Table, front: seq<Section>, last: Section)
    ensures MarkedInAny(t, front + [last]) == MarkedInAny(t, front) + MarkedInSection(t, last)
  {
    hide MarkedIn, MarkedInSection;
    var all := front + [last];
    forall c | c in MarkedInAny(t, front) + MarkedInSection(t, last)
      ensures c in MarkedInAny(t, all)
    {
      if c in MarkedInAny(t, front) {
        var i :| 0 <= i < |front| && c in MarkedInSection(t, front[i]);
        assert all[i] == front[i];
      } else {
        assert all[|front|] == last;
      }
    }
  }

  function ListedSpacing(listedBytes: nat, heapsize: nat): nat
    requires listedBytes != 0
  {
    HBLKSIZE * (heapsize / listedBytes)
  }

  /** The black-list spacing chosen after a collection, in bytes. */
  function Spacing(before: nat, listedBytes: nat, heapsize: nat): (s: nat)
    ensures 3 * 0x1_0000 <= s <= 2048 * 0x1_0000
  {
    var s0 := if listedBytes != 0 then ListedSpacing(listedBytes, heapsize) else before;
    var s1 := if s0 < 3 * HBLKSIZE then 3 * HBLKSIZE else s0;
    if s1 > MAXHINCR * HBLKSIZE then MAXHINCR * HBLKSIZE else s1
  }

  /** With anything listed, the spacing is as many blocks as fit between two listed bytes if they were
      spread evenly, or the nearest of 3 and 2048; with nothing listed, it stays if it is in range. */
  lemma SpacingMeans(before: nat, listedBytes: nat, heapsize: nat)
    ensures var s := Spacing(before, listedBytes, heapsize);
      if listedBytes > 0 then
        var k := s / 0x1_0000;
        && s % 0x1_0000 == 0
        && (k * listedBytes <= heapsize || k == 3) && (heapsize < (k + 1) * listedBytes || k == 2048)
      else
        s == before || (s == 3 * 0x1_0000 && before < s) || (s == 2048 * 0x1_0000 && before > s)
  {
    if listedBytes > 0 {
      hide Spacing;
      var q := heapsize / listedBytes;
      QuotientBounds(heapsize, listedBytes);
      SpacingBlocks(before, listedBytes, heapsize);
      var k := Spacing(before, listedBytes, heapsize) / 0x1_0000;
      Scaled(k, q, listedBytes);
      Scaled(q + 1, k + 1, listedBytes);
    }
  }

  lemma SpacingBlocks(before: nat, listedBytes: nat, heapsize: nat)
    requires listedBytes > 0
    ensures var s, q := Spacing(before, listedBytes, heapsize), heapsize / listedBytes;
      s == 0x1_0000 * (if q < 3 then 3 else if q > 2048 then 2048 else q)
  {
    var q := heapsize / listedBytes;
    assert ListedSpacing(listedBytes, heapsize) == 0x1_0000 * q;
  }

  lemma QuotientBounds(a: nat, b: nat)
    requires b > 0
    ensures a / b * b <= a < (a / b + 1) * b
  {
  }

  lemma Scaled(x: nat, y: nat, b: nat)
    ensures x <= y ==> x * b <= y * b
  {
    if x <= y {
      assert (y - x) * b >= 0;
    }
  }

  // ---- The mutable tables ----

  class BlackLists {
    const allInterior: bool
    var oldNormal: array?<Word>
    var incNormal: array?<Word>
    var oldStack: array<Word>
    var incStack: array<Word>
    var totalStackListed: nat
    var spacing: nat

    /** The two buffers of each kind exist where they are used and never alias. */
    ghost predicate Valid()
      reads this, oldNormal, incNormal, oldStack, incStack
    {
      && oldStack.Length == PHT_SIZE && incStack.Length == PHT_SIZE && oldStack != incStack
      && (allInterior ==> oldNormal == null && incNormal == null)
      && (!allInterior ==>
            && oldNormal != null && incNormal != null && oldNormal != incNormal
            && oldNormal.Length == PHT_SIZE && incNormal.Length == PHT_SIZE
            && oldNormal != oldStack && oldNormal != incStack
            && incNormal != oldStack && incNormal != incStack)
    }

    ghost function Tables(): View
      requires Valid()
      reads this, oldNormal, incNormal, oldStack, incStack
    {
      View(allInterior,
           if allInterior then Clear() else oldNormal[..],
           if allInterior then Clear() else incNormal[..],
           oldStack[..], incStack[..])
    }

    ghost function Buffers(): set<array?<Word>>
      reads this
    {
      {oldNormal, incNormal, oldStack, incStack}
    }

    constructor (allInterior: bool)
      ensures Valid() && Tables() == View(allInterior, Clear(), Clear(), Clear(), Clear())
      ensures spacing == 16 * 0x1_0000
      ensures fresh(Buffers() - {null})
    {
      this.allInterior := allInterior;
      if allInterior {
        oldNormal, incNormal := null, null;
      } else {
        oldNormal := new Word[PHT_SIZE](_ => 0);
        incNormal := new Word[PHT_SIZE](_ => 0);
      }
      oldStack := new Word[PHT_SIZE](_ => 0);
      incStack := new Word[PHT_SIZE](_ => 0);
      totalStackListed := 0;
      spacing := MINHINCR * HBLKSIZE;
    }

    static method ClearBl(doomed: array<Word>)
      requires doomed.Length == PHT_SIZE
      modifies doomed
      ensures doomed[..] == Clear()
    {
      forall i | 0 <= i < doomed.Length {
        doomed[i] := 0;
      }
    }

    static method CopyBl(from: array<Word>, to: array<Word>)
      requires from.Length == PHT_SIZE && to.Length == PHT_SIZE && from != to
      modifies to
      ensures to[..] == from[..]
    {
      forall i | 0 <= i < to.Length {
        to[i] := from[i];
      }
    }

    static method GetPhtEntry(bl: array<Word>, index: nat) returns (marked: bool)
      requires bl.Length == PHT_SIZE && index < PHT_ENTRIES
      ensures marked <==> Entry(bl[..], index)
    {
      marked := Bit(bl[index / WORDSZ], index % WORDSZ);
    }

    static method SetPhtEntry(bl: array<Word>, index: nat)
      requires bl.Length == PHT_SIZE && index < PHT_ENTRIES
      modifies bl
      ensures bl[..] == WithEntry(old(bl[..]), index)
    {
      bl[index / WORDSZ] := WordWithBit(bl[index / WORDSZ], index % WORDSZ);
    }

    method AddToBlackListStack(block: nat, noHeader: bool)
      requires Valid()
      modifies incStack
      ensures Valid() && Tables() == Step(old(Tables()), AddStack(block, noHeader))
    {
      var index := Hash(block);
      var wasListed := GetPhtEntry(oldStack, index);
      if noHeader || wasListed {
        SetPhtEntry(incStack, index);
      }
    }

    /** Reached through a macro that sends the pointer to the stack list when all
        interior pointers are recognised. */
    method AddToBlackListNormal(block: nat, validOffset: bool, noHeader: bool)
      requires Valid()
      modifies incNormal, incStack
      ensures Valid() && Tables() == Step(old(Tables()), AddNormal(block, validOffset, noHeader))
    {
      if allInterior {
        AddToBlackListStack(block, noHeader);
        return;
      }
      if validOffset {
        var index := Hash(block);
        var wasListed := GetPhtEntry(oldNormal, index);
        if noHeader || wasListed {
          SetPhtEntry(incNormal, index);
        }
      }
    }

    /** The swap: what was being recorded becomes the list in use, and the list in use is cleared. */
    method SwapTables()
      requires Valid()
      modifies this`oldNormal, this`incNormal, this`oldStack, this`incStack, oldNormal, oldStack
      ensures Valid() && Tables() == Step(old(Tables()), Promote)
      ensures Buffers() == old(Buffers())
    {
      hide Clear;
      var veryOldNormal, veryOldStack := oldNormal, oldStack;
      oldNormal, oldStack := incNormal, incStack;
      if !allInterior {
        ClearBl(veryOldNormal);
      }
      ClearBl(veryOldStack);
      incNormal, incStack := veryOldNormal, veryOldStack;
    }

    method PromoteBlackLists(sections: seq<Section>, heapsize: nat)
      requires Valid()
      modifies this, oldNormal, oldStack
      ensures Valid() && Tables() == Step(old(Tables()), Promote)
      ensures Buffers() == old(Buffers())
      ensures totalStackListed == CountSections(Tables().oldStack, sections) * HBLKSIZE % WORD
      ensures Disjoint(sections) ==>
                totalStackListed == |MarkedInAny(old(incStack[..]), sections)| * 0x1_0000 % WORD
      ensures spacing == Spacing(old(spacing), totalStackListed, heapsize)
    {
      hide ListedSpacing, CountSections, MarkedInAny, Disjoint, Clear;
      SwapTables();
      totalStackListed := TotalStackBlackListed(sections);
      if totalStackListed != 0 {
        spacing := ListedSpacing(totalStackListed, heapsize);
      }
      if spacing < 3 * HBLKSIZE {
        spacing := 3 * HBLKSIZE;
      }
      if spacing > MAXHINCR * HBLKSIZE {
        spacing := MAXHINCR * HBLKSIZE;
      }
    }

    method UnpromoteBlackLists()
      requires Valid()
      modifies incNormal, incStack
      ensures Valid() && Tables() == Step(old(Tables()), Unpromote)
    {
      if !allInterior {
        CopyBl(oldNormal, incNormal);
      }
      CopyBl(oldStack, incStack);
    }

    method NumberStackBlackListed(start: nat, endp1: nat) returns (result: nat)
      requires Valid()
      ensures result == |MarkedIn(Tables().oldStack, start, endp1)|
      ensures result == CountMarked(Tables().oldStack, start, endp1)
    {
      hide MarkedIn;
      CountIsCardinality(Tables().oldStack, start, endp1);
      result := 0;
      var h := start;
      while h < endp1
        invariant start <= h && (if start <= endp1 then h <= endp1 else h == start)
        invariant result == CountMarked(Tables().oldStack, start, h)
      {
        var listed := GetPhtEntry(oldStack, Hash(h));
        if listed {
          result := result + 1;
        }
        h := h + 1;
      }
    }

    method TotalStackBlackListed(sections: seq<Section>) returns (bytes: nat)
      requires Valid()
      ensures bytes == CountSections(Tables().oldStack, sections) * HBLKSIZE % WORD
      ensures Disjoint(sections) ==> bytes == |MarkedInAny(Tables().oldStack, sections)| * 0x1_0000 % WORD
    {
      hide MarkedIn, MarkedInAny, CountMarked;
      if Disjoint(sections) {
        SectionsCountBlocks(Tables().oldStack, sections);
      }
      var total := 0;
      for i := 0 to |sections|
        invariant total == CountSections(Tables().oldStack, sections[..i])
      {
        assert sections[..i + 1][..i] == sections[..i];
        var n := NumberStackBlackListed(sections[i].start, sections[i].start + sections[i].blocks);
        total := total + n;
      }
      assert sections[..|sections|] == sections;
      bytes := total * HBLKSIZE % WORD;
    }

    /** The word-skipping scan agrees with the naive test, and a non-zero answer
        skips only starts that the naive test also rejects. */
    method IsBlackListed(h: nat, len: nat) returns (r: nat)
      requires Valid()
      ensures r == 0 <==> !Tables().Listed(h, Window(len))
      ensures r != 0 ==>
                && h < r <= h + Window(len)
                && forall s :: h <= s < r ==> Tables().Listed(s, Window(len))
      ensures r != 0 && !Tables().Normal(h) ==>
                Tables().Stack(r - 1) && forall c :: h <= c < r - 1 ==> !Tables().Stack(c)
    {
      hide Bit, Hash, Window;
      ghost var v := Tables();
      var index := Hash(h);
      WindowBlocks(len);
      if !allInterior {
        var previous := GetPhtEntry(oldNormal, index);
        var recent := GetPhtEntry(incNormal, index);
        if previous || recent {
          return h + 1;
        }
      }
      var nblocks := len / HBLKSIZE;
      var i := 0;
      while true
        invariant index == Hash(h + i)
        invariant i == 0 || i < nblocks
        invariant forall c :: h <= c < h + i ==> !v.Stack(c)
        decreases nblocks - i
      {
        if oldStack[index / WORDSZ] == 0 && incStack[index / WORDSZ] == 0 {
          EasyCase(v, h + i);
          i := i + WORDSZ - index % WORDSZ;
        } else {
          var previous := GetPhtEntry(oldStack, index);
          var recent := GetPhtEntry(incStack, index);
          if previous || recent {
            assert v.Stack(h + i);
            return h + i + 1;
          }
          i := i + 1;
        }
        if i >= nblocks {
          break;
        }
        index := Hash(h + i);
      }
      return 0;
    }
  }

  /** Two zero words clear every block up to the end of the word. */
  lemma EasyCase(v: View, b: nat)
    requires v.oldStack[Hash(b) / WORDSZ] == 0 && v.incStack[Hash(b) / WORDSZ] == 0
    ensures forall c :: b <= c < b + WORDSZ - Hash(b) % WORDSZ ==> !v.Stack(c)
  {
    forall c | b <= c < b + WORDSZ - Hash(b) % WORDSZ
      ensures !v.Stack(c)
    {
      SameWord(b, c - b);
      ZeroWordHasNoBit(Hash(c) % WORDSZ);
    }
  }
}
