/** Section addresses and symbol lengths recovered from an MSVC linker map. */
module MapLayout {
  datatype Option<T> = None | Some(value: T)

  datatype SegmentType = Code | Data

  datatype Section = Section(start: int, length: int, name: string, segmentName: string, segmentType: SegmentType)
  {
    function End(): int {
      start + length
    }
  }

  datatype Symbol = Symbol(start: int, length: int, name: string, objectFile: string, segmentType: SegmentType)

  const SECTION_BOUNDARY := 0x1000

  // ---- Rebasing sections ----

  /** Division that truncates toward zero. */
  function TruncDiv(x: int, d: int): int
    requires d > 0
  {
    if x >= 0 then x / d else -(-x / d)
  }

  /** The segment offset after a segment that ends at end. */
  function NextOffset(end: int): int {
    if end % SECTION_BOUNDARY != 0 then TruncDiv(end + SECTION_BOUNDARY, SECTION_BOUNDARY) * SECTION_BOUNDARY else end
  }

  /** Offset and current segment name after the given raw sections. */
  datatype Cursor = Cursor(offset: int, segment: string, sections: seq<Section>)

  function Advance(c: Cursor, s: Section): Cursor {
    var offset :=
      if |c.segment| == 0 || c.segment == s.segmentName || c.sections == [] then c.offset
      else NextOffset(c.sections[|c.sections| - 1].End());
    var segment := if |c.segment| == 0 || c.segment != s.segmentName then s.segmentName else c.segment;
    Cursor(offset, segment, c.sections + [s.(start := s.start + offset)])
  }

  function Rebase(raw: seq<Section>): (c: Cursor)
    ensures |c.sections| == |raw|
  {
    if raw == [] then Cursor(SECTION_BOUNDARY, "", [])
    else Advance(Rebase(raw[..|raw| - 1]), raw[|raw| - 1])
  }

  lemma NothingRebased()
    ensures Rebase([]) == Cursor(0x1000, "", [])
  {
  }

  /** `ParseSections` over the parsed lines. */
  method ParseSections(lines: seq<Section>) returns (sections: seq<Section>)
    ensures sections == Rebase(lines).sections
  {
    hide Rebase, TruncDiv;
    NothingRebased();
    assert lines[..0] == [];
    sections := [];
    var segmentOffset, currentSegmentName := SECTION_BOUNDARY, "";
    var i := 0;
    while i < |lines|
      invariant i <= |lines|
      invariant Cursor(segmentOffset, currentSegmentName, sections) == Rebase(lines[..i])
      invariant sections == [] ==> |currentSegmentName| == 0
    {
      RebaseOne(lines, i);
      var section := lines[i];
      if |currentSegmentName| == 0 {
        currentSegmentName := section.segmentName;
      } else if currentSegmentName != section.segmentName {
        var prevSection := sections[|sections| - 1];
        segmentOffset := prevSection.start + prevSection.length;
        if segmentOffset % SECTION_BOUNDARY != 0 {
          segmentOffset := TruncDiv(segmentOffset + SECTION_BOUNDARY, SECTION_BOUNDARY) * SECTION_BOUNDARY;
        }
        currentSegmentName := section.segmentName;
      }
      sections := sections + [section.(start := section.start + segmentOffset)];
      i := i + 1;
    }
    assert lines[..|lines|] == lines;
  }

  /** The next offset is the least page boundary not before the end of the segment, exactly if that end
      is a boundary or lies above minus one page; below, truncation overshoots by a page. */
  lemma NextOffsetIsCeiling(end: int)
    ensures NextOffset(end) % 0x1000 == 0
    ensures end <= NextOffset(end) < end + 0x1000 <==> end % 0x1000 == 0 || end > -0x1000
    ensures end % 0x1000 != 0 && end < -0x1000 ==> end + 0x1000 < NextOffset(end) < end + 0x2000
  {
  }

  /** Sections start and extend forward, and within a segment follow each other. */
  predicate WellListed(raw: seq<Section>) {
    && (forall i :: 0 <= i < |raw| ==> raw[i].start >= 0 && raw[i].length >= 0 && |raw[i].segmentName| > 0)
    && (forall i :: 0 < i < |raw| && raw[i].segmentName == raw[i - 1].segmentName ==> raw[i - 1].End() <= raw[i].start)
  }

  /** The offset that rebasing gave section i. */
  function OffsetOf(raw: seq<Section>, i: nat): int
    requires i < |raw|
  {
    Rebase(raw).sections[i].start - raw[i].start
  }

  lemma {:induction false} RebasePrefix(raw: seq<Section>, n: nat)
    requires n <= |raw|
    ensures Rebase(raw[..n]).sections == Rebase(raw).sections[..n]
  {
    if n < |raw| {
      var all := Rebase(raw).sections;
      RebasePrefix(raw[..|raw| - 1], n);
      assert raw[..|raw| - 1][..n] == raw[..n];
      assert all[..|raw| - 1] == Rebase(raw[..|raw| - 1]).sections;
      assert all[..|raw| - 1][..n] == all[..n];
    } else {
      assert raw[..n] == raw;
    }
  }

  /** The current segment is always that of the section just read. */
  lemma {:induction false} CursorAt(raw: seq<Section>, n: nat)
    requires 0 < n <= |raw|
    ensures var c := Rebase(raw[..n]);
      c.segment == raw[n - 1].segmentName && c.sections != [] && c.offset == OffsetOf(raw, n - 1)
      && c.sections[n - 1] == raw[n - 1].(start := raw[n - 1].start + c.offset)
  {
    assert raw[..n][..n - 1] == raw[..n - 1];
    RebasePrefix(raw, n);
    if n > 1 {
      CursorAt(raw, n - 1);
    }
  }

  /** What rebasing does, section by section, to any input: only the start changes; the first section
      starts one page up; a section keeps its predecessor's offset if its segment has the same name or
      the predecessor's has none; otherwise its offset is the boundary after its predecessor. */
  lemma RebaseSteps(raw: seq<Section>, i: nat)
    requires i < |raw|
    ensures var out := Rebase(raw).sections;
      && out[i] == raw[i].(start := raw[i].start + OffsetOf(raw, i))
      && OffsetOf(raw, i) ==
           if i == 0 then 0x1000
           else if raw[i - 1].segmentName == "" || raw[i].segmentName == raw[i - 1].segmentName
           then OffsetOf(raw, i - 1)
           else NextOffset(out[i - 1].start + out[i - 1].length)
  {
    hide Rebase, NextOffset, Advance, OffsetOf;
    CursorAt(raw, i + 1);
    RebasePrefix(raw, i + 1);
    if i > 0 {
      RebaseNext(raw, i);
    } else {
      RebaseOne(raw, 0);
      OffsetAfter(Rebase(raw[..0]), raw[0]);
    }
    assert Rebase(raw).sections[i] == Rebase(raw[..i + 1]).sections[i];
  }

  lemma RebaseNext(raw: seq<Section>, i: nat)
    requires 0 < i < |raw|
    ensures var last := Rebase(raw).sections[i - 1];
      OffsetOf(raw, i) ==
        if raw[i - 1].segmentName == "" || raw[i].segmentName == raw[i - 1].segmentName then OffsetOf(raw, i - 1)
        else NextOffset(last.start + last.length)
  {
    hide Rebase, NextOffset, Advance, OffsetOf;
    CursorAt(raw, i + 1);
    CursorAt(raw, i);
    RebaseOne(raw, i);
    var c := Rebase(raw[..i]);
    OffsetAfter(c, raw[i]);
    RebasePrefix(raw, i);
    assert |c.sections| == i && c.sections[i - 1] == Rebase(raw).sections[i - 1];
  }

  lemma OffsetAfter(c: Cursor, s: Section)
    ensures Advance(c, s).offset ==
              if c.segment == "" || c.segment == s.segmentName || c.sections == [] then c.offset
              else
                var last := c.sections[|c.sections| - 1];
                NextOffset(last.start + last.length)
  {
    hide NextOffset;
  }

  lemma RebaseOne(raw: seq<Section>, n: nat)
    requires n < |raw|
    ensures Rebase(raw[..n + 1]) == Advance(Rebase(raw[..n]), raw[n])
    ensures n == 0 ==> Rebase(raw[..n]) == Cursor(0x1000, "", [])
  {
    hide Advance;
    assert raw[..n + 1][..n] == raw[..n];
  }

  /** Every segment base is page-aligned and every section non-negative. */
  lemma {:induction false} OffsetsAligned(raw: seq<Section>, i: nat)
    requires WellListed(raw) && i < |raw|
    ensures OffsetOf(raw, i) % SECTION_BOUNDARY == 0 && OffsetOf(raw, i) >= 0
  {
    RebaseSteps(raw, i);
    if i > 0 {
      OffsetsAligned(raw, i - 1);
      RebaseSteps(raw, i - 1);
      NextOffsetIsCeiling(Rebase(raw).sections[i - 1].End());
    }
  }

  /** Rebased sections are pairwise disjoint and ascending. */
  lemma {:induction false} SectionsAscend(raw: seq<Section>, i: nat, j: nat)
    requires WellListed(raw) && i < j < |raw|
    ensures Rebase(raw).sections[i].End() <= Rebase(raw).sections[j].start
    decreases j
  {
    var out := Rebase(raw).sections;
    RebaseSteps(raw, j);
    RebaseSteps(raw, j - 1);
    OffsetsAligned(raw, j - 1);
    NextOffsetIsCeiling(out[j - 1].End());
    assert out[j - 1].End() <= out[j].start;
    if i < j - 1 {
      SectionsAscend(raw, i, j - 1);
    }
  }

  // ---- Finding a section ----

  predicate Holds(s: Section, address: int) {
    s.start <= address <= s.End()
  }

  /** The first section that holds the address; its end counts as inside. */
  method GetSectionIndexForSymbol(address: int, sections: seq<Section>) returns (r: Option<nat>)
    ensures r == SectionIndex(address, sections)
    ensures r.Some? ==> r.value < |sections| && Holds(sections[r.value], address)
                        && forall i :: 0 <= i < r.value ==> !Holds(sections[i], address)
    ensures r.None? ==> forall i :: 0 <= i < |sections| ==> !Holds(sections[i], address)
  {
    var index := 0;
    while index < |sections|
      invariant index <= |sections|
      invariant forall i :: 0 <= i < index ==> !Holds(sections[i], address)
      invariant SectionIndex(address, sections) == SectionIndexFrom(address, sections, index)
    {
      if address >= sections[index].start && address <= sections[index].start + sections[index].length {
        return Some(index);
      }
      index := index + 1;
    }
    return None;
  }

  function SectionIndexFrom(address: int, sections: seq<Section>, i: nat): (r: Option<nat>)
    requires i <= |sections|
    ensures r.Some? ==> i <= r.value < |sections| && Holds(sections[r.value], address)
                        && forall j :: i <= j < r.value ==> !Holds(sections[j], address)
    ensures r.None? ==> forall j :: i <= j < |sections| ==> !Holds(sections[j], address)
    decreases |sections| - i
  {
    if i == |sections| then None
    else if Holds(sections[i], address) then Some(i)
    else SectionIndexFrom(address, sections, i + 1)
  }

  function SectionIndex(address: int, sections: seq<Section>): (r: Option<nat>)
    ensures r.Some? ==> r.value < |sections| && Holds(sections[r.value], address)
                        && forall j :: 0 <= j < r.value ==> !Holds(sections[j], address)
    ensures r.None? ==> forall j :: 0 <= j < |sections| ==> !Holds(sections[j], address)
  {
    SectionIndexFrom(address, sections, 0)
  }

  /** The search stops at the first section that holds the address. */
  lemma {:induction false} FirstHolder(address: int, sections: seq<Section>, from: nat, i: nat)
    requires from <= i < |sections| && Holds(sections[i], address)
    requires forall j :: from <= j < i ==> !Holds(sections[j], address)
    ensures SectionIndexFrom(address, sections, from) == Some(i)
    decreases i - from
  {
    if from < i {
      FirstHolder(address, sections, from + 1, i);
    }
  }

  /** Sections with non-negative lengths that follow each other. */
  predicate Apart(out: seq<Section>) {
    && (forall i :: 0 <= i < |out| ==> out[i].length >= 0)
    && (forall i, j :: 0 <= i < j < |out| ==> out[i].End() <= out[j].start)
  }

  lemma RebasedApart(raw: seq<Section>)
    requires WellListed(raw)
    ensures Apart(Rebase(raw).sections)
  {
    hide Rebase, WellListed;
    var out := Rebase(raw).sections;
    forall i | 0 <= i < |out|
      ensures out[i].length >= 0
    {
      LengthKept(raw, i);
    }
    forall i, j | 0 <= i < j < |out|
      ensures out[i].End() <= out[j].start
    {
      SectionsAscend(raw, i, j);
    }
  }

  lemma LengthKept(raw: seq<Section>, i: nat)
    requires WellListed(raw) && i < |raw|
    ensures Rebase(raw).sections[i].length == raw[i].length >= 0
  {
    RebaseSteps(raw, i);
  }

  lemma FoundInside(out: seq<Section>, i: nat, d: int)
    requires Apart(out) && i < |out| && 0 < d <= out[i].length
    ensures SectionIndex(out[i].start + d, out) == Some(i)
  {
    FirstHolder(out[i].start + d, out, 0, i);
  }

  lemma FoundAtStart(out: seq<Section>, i: nat)
    requires Apart(out) && i < |out|
    ensures SectionIndex(out[i].start, out) == Some(i) <==> i == 0 || out[i - 1].End() < out[i].start
  {
    if i == 0 || out[i - 1].End() < out[i].start {
      forall j | 0 <= j < i
        ensures !Holds(out[j], out[i].start)
      {
        assert out[j].End() <= out[i - 1].End();
      }
      FirstHolder(out[i].start, out, 0, i);
    } else {
      EarlierHolder(out[i].start, out, i - 1);
    }
  }

  /** Past its first byte, every address of a rebased section is found in that section. */
  lemma InnerAddressesFound(raw: seq<Section>, i: nat, d: int)
    requires WellListed(raw) && i < |raw| && 0 < d <= raw[i].length
    ensures SectionIndex(Rebase(raw).sections[i].start + d, Rebase(raw).sections) == Some(i)
  {
    hide Rebase, WellListed, SectionIndex, Apart;
    RebasedApart(raw);
    LengthKept(raw, i);
    FoundInside(Rebase(raw).sections, i, d);
  }

  /** Its first byte is found in it exactly if there is a gap before it: where the predecessor ends
      at that byte, the inclusive end hands the byte, with its segment type, to an earlier section. */
  lemma FirstAddressFound(raw: seq<Section>, i: nat)
    requires WellListed(raw) && i < |raw|
    ensures var out := Rebase(raw).sections;
      SectionIndex(out[i].start, out) == Some(i) <==> i == 0 || out[i - 1].End() < out[i].start
  {
    hide Rebase, WellListed, SectionIndex, Apart;
    RebasedApart(raw);
    FoundAtStart(Rebase(raw).sections, i);
  }

  /** Two adjoining sections: the first byte of the data is taken for code. */
  lemma DataTakenForCode()
    ensures var raw := [Section(0, 16, ".text", "1", Code), Section(16, 16, ".rdata", "1", Data)];
      var out := Rebase(raw).sections;
      WellListed(raw) && out[1].start == 0x1010 && SectionIndex(0x1010, out) == Some(0)
  {
    var a, b := Section(0, 16, ".text", "1", Code), Section(16, 16, ".rdata", "1", Data);
    var raw := [a, b];
    RebaseSteps(raw, 0);
    RebaseSteps(raw, 1);
    FirstHolder(0x1010, Rebase(raw).sections, 0, 0);
  }

  lemma EarlierHolder(address: int, sections: seq<Section>, k: nat)
    requires k < |sections| && Holds(sections[k], address)
    ensures SectionIndex(address, sections).Some? && SectionIndex(address, sections).value <= k
  {
    AtMost(address, sections, 0, k);
  }

  lemma {:induction false} AtMost(address: int, sections: seq<Section>, from: nat, k: nat)
    requires from <= k < |sections| && Holds(sections[k], address)
    ensures SectionIndexFrom(address, sections, from).Some? && SectionIndexFrom(address, sections, from).value <= k
    decreases k - from
  {
    if from < k && !Holds(sections[from], address) {
      AtMost(address, sections, from + 1, k);
    }
  }

  // ---- Symbol lengths ----

  predicate IsImageBase(name: string) {
    name == "___ImageBase" || name == "__ImageBase"
  }

  /** Position of the image-base symbol, or the number of symbols. */
  function ImageBase(symbols: seq<Symbol>): (k: nat)
    ensures k <= |symbols|
    ensures k < |symbols| ==> IsImageBase(symbols[k].name)
    ensures forall i :: 0 <= i < k ==> !IsImageBase(symbols[i].name)
  {
    if symbols == [] then 0
    else if IsImageBase(symbols[0].name) then 0
    else
      assert forall i :: 0 < i < |symbols| ==> symbols[i] == symbols[1..][i - 1];
      1 + ImageBase(symbols[1..])
  }

  predicate Located(y: Symbol, sections: seq<Section>) {
    SectionIndex(y.start, sections).Some?
  }

  function SectionOf(y: Symbol, sections: seq<Section>): (s: Section)
    requires Located(y, sections)
    ensures Holds(s, y.start)
  {
    sections[SectionIndex(y.start, sections).value]
  }

  function Follower(symbols: seq<Symbol>, i: nat): Option<Symbol> {
    if i + 1 < |symbols| then Some(symbols[i + 1]) else None
  }

  predicate Measurable(y: Symbol, next: Option<Symbol>, sections: seq<Section>) {
    Located(y, sections) && (next.Some? ==> Located(next.value, sections))
  }

  /** Does the symbol end with its section: does nothing follow it in its segment? */
  predicate EndsSegment(y: Symbol, next: Option<Symbol>, sections: seq<Section>)
    requires Measurable(y, next, sections)
  {
    next.None? || SectionOf(y, sections).segmentName != SectionOf(next.value, sections).segmentName
  }

  /** The symbol with its length and segment type filled in. */
  function MeasuredBefore(y: Symbol, next: Option<Symbol>, sections: seq<Section>): Symbol
    requires Measurable(y, next, sections)
  {
    var s := SectionOf(y, sections);
    var length := if EndsSegment(y, next, sections) then s.End() - y.start else next.value.start - y.start;
    Symbol(y.start, length, y.name, y.objectFile, s.segmentType)
  }

  predicate MeasurableAt(symbols: seq<Symbol>, sections: seq<Section>, i: nat) {
    i < |symbols| && Measurable(symbols[i], Follower(symbols, i), sections)
  }

  predicate LastOfSegment(symbols: seq<Symbol>, sections: seq<Section>, i: nat)
    requires MeasurableAt(symbols, sections, i)
  {
    EndsSegment(symbols[i], Follower(symbols, i), sections)
  }

  function Measured(symbols: seq<Symbol>, sections: seq<Section>, i: nat): Symbol
    requires MeasurableAt(symbols, sections, i)
  {
    MeasuredBefore(symbols[i], Follower(symbols, i), sections)
  }

  /** Every symbol after the image base lies in some section. */
  predicate AllLocated(symbols: seq<Symbol>, sections: seq<Section>) {
    forall i :: ImageBase(symbols) < i < |symbols| ==> Located(symbols[i], sections)
  }

  /** The symbol as the failed measurement leaves it: its segment type is set before its follower
      is looked for. */
  function Typed(y: Symbol, sections: seq<Section>): Symbol {
    if Located(y, sections) then y.(segmentType := SectionOf(y, sections).segmentType) else y
  }

  method MeasureSymbol(y: Symbol, next: Option<Symbol>, sections: seq<Section>) returns (r: Symbol, ok: bool)
    ensures ok <==> Measurable(y, next, sections)
    ensures r == if ok then MeasuredBefore(y, next, sections) else Typed(y, sections)
  {
    r, ok := y, false;
    var here := GetSectionIndexForSymbol(y.start, sections);
    if here.None? {
      return;
    }
    var current := sections[here.value];
    r := r.(segmentType := current.segmentType);
    var last := next.None?;
    if !last {
      var there := GetSectionIndexForSymbol(next.value.start, sections);
      if there.None? {
        return;
      }
      last := current.segmentName != sections[there.value].segmentName;
    }
    if last {
      r := r.(length := current.start + current.length - y.start);
    } else {
      r := r.(length := next.value.start - y.start);
    }
    ok := true;
  }

  /** The symbols after the image base and before position k are measured, the others untouched. */
  ghost predicate MeasuredUpTo(was: seq<Symbol>, now: seq<Symbol>, sections: seq<Section>, k: nat) {
    && |now| == |was| && k <= |was|
    && (forall i :: ImageBase(was) < i < k ==> MeasurableAt(was, sections, i) && now[i] == Measured(was, sections, i))
    && (forall i :: 0 <= i < |was| && (i <= ImageBase(was) || k <= i) ==> now[i] == was[i])
  }

  // ---- What a measured symbol is, section by section ----

  /** Section j is the first that reaches from its start to its end, both included, over the address. */
  predicate FirstAround(sections: seq<Section>, address: int, j: nat) {
    && j < |sections| && sections[j].start <= address <= sections[j].start + sections[j].length
    && forall m :: 0 <= m < j ==> !(sections[m].start <= address <= sections[m].start + sections[m].length)
  }

  /** Some symbol before position i is the image base. */
  predicate PastBase(symbols: seq<Symbol>, i: nat) {
    exists m :: 0 <= m < i && m < |symbols| && symbols[m].name in {"___ImageBase", "__ImageBase"}
  }

  /** Symbol i, in section j, with its follower in section k: y has the type of section j, ends with
      that section if it is the last symbol or the follower's segment is another, and else ends where
      the follower starts. Nothing else of it changes. */
  predicate Laid(symbols: seq<Symbol>, y: Symbol, sections: seq<Section>, i: nat, j: nat, k: nat) {
    && i < |symbols| && FirstAround(sections, symbols[i].start, j)
    && (i + 1 < |symbols| ==> FirstAround(sections, symbols[i + 1].start, k))
    && y.start == symbols[i].start && y.name == symbols[i].name && y.objectFile == symbols[i].objectFile
    && y.segmentType == sections[j].segmentType
    && y.start + y.length ==
         if i + 1 == |symbols| || sections[k].segmentName != sections[j].segmentName
         then sections[j].start + sections[j].length
         else symbols[i + 1].start
  }

  /** The outcome of success: exactly the symbols past the image base are laid out. */
  ghost predicate LaidOut(was: seq<Symbol>, now: seq<Symbol>, sections: seq<Section>) {
    && |now| == |was|
    && forall i :: 0 <= i < |was| ==>
         if PastBase(was, i) then exists j: nat, k: nat :: Laid(was, now[i], sections, i, j, k) else now[i] == was[i]
  }

  lemma PastBaseIs(symbols: seq<Symbol>, i: nat)
    requires i < |symbols|
    ensures PastBase(symbols, i) <==> ImageBase(symbols) < i
  {
    var b := ImageBase(symbols);
    if b < i {
      assert symbols[b].name in {"___ImageBase", "__ImageBase"};
    }
  }

  lemma FirstAroundIs(sections: seq<Section>, address: int)
    requires SectionIndex(address, sections).Some?
    ensures FirstAround(sections, address, SectionIndex(address, sections).value)
  {
    var j := SectionIndex(address, sections).value;
    assert forall m :: 0 <= m < j ==> !Holds(sections[m], address);
  }

  lemma MeasuredIsLaid(symbols: seq<Symbol>, sections: seq<Section>, i: nat)
    requires MeasurableAt(symbols, sections, i)
    ensures exists j: nat, k: nat :: Laid(symbols, Measured(symbols, sections, i), sections, i, j, k)
  {
    hide SectionIndex, FirstAround;
    var j := SectionIndex(symbols[i].start, sections).value;
    FirstAroundIs(sections, symbols[i].start);
    var k := 0;
    if i + 1 < |symbols| {
      FirstAroundIs(sections, symbols[i + 1].start);
      k := SectionIndex(symbols[i + 1].start, sections).value;
    }
    assert Laid(symbols, Measured(symbols, sections, i), sections, i, j, k);
  }

  lemma AllLaidOut(was: seq<Symbol>, now: seq<Symbol>, sections: seq<Section>)
    requires MeasuredUpTo(was, now, sections, |was|)
    ensures LaidOut(was, now, sections)
  {
    hide Laid, Measured, MeasurableAt, ImageBase, PastBase;
    forall i | 0 <= i < |was|
      ensures if PastBase(was, i) then exists j: nat, k: nat :: Laid(was, now[i], sections, i, j, k)
              else now[i] == was[i]
    {
      PastBaseIs(was, i);
      if PastBase(was, i) {
        MeasuredIsLaid(was, sections, i);
      }
    }
  }

  /** `CalculateLengthsAndSegmentTypesForAllSymbols`: fails exactly when a symbol after the image base
      lies in no section, at the first symbol k that has no section or whose follower has none;
      otherwise it fills in exactly the symbols after the image base. */
  method CalculateLengths(symbols: array<Symbol>, sections: seq<Section>) returns (ok: bool, ghost k: nat)
    modifies symbols
    ensures ok <==> AllLocated(old(symbols[..]), sections)
    ensures ok ==> MeasuredUpTo(old(symbols[..]), symbols[..], sections, symbols.Length)
    ensures ok ==> LaidOut(old(symbols[..]), symbols[..], sections)
    ensures !ok ==>
              && ImageBase(old(symbols[..])) < k < symbols.Length && !MeasurableAt(old(symbols[..]), sections, k)
              && symbols[k] == Typed(old(symbols[k]), sections)
              && MeasuredUpTo(old(symbols[..]), symbols[..][k := old(symbols[k])], sections, k)
  {
    hide MeasuredBefore, SectionIndex, SectionOf, LaidOut;
    ghost var was, base := symbols[..], ImageBase(symbols[..]);
    var processedImageBase := false;
    var index := 0;
    k := 0;
    while index < symbols.Length
      invariant index <= symbols.Length
      invariant processedImageBase <==> base < index
      invariant MeasuredUpTo(was, symbols[..], sections, index)
    {
      if !processedImageBase {
        if IsImageBase(symbols[index].name) {
          processedImageBase := true;
        }
      } else {
        var next := if index + 1 < symbols.Length then Some(symbols[index + 1]) else None;
        var measured, done := MeasureSymbol(symbols[index], next, sections);
        assert next == Follower(was, index);
        symbols[index] := measured;
        if !done {
          k := index;
          return false, k;
        }
      }
      index := index + 1;
    }
    forall i | base < i < |was|
      ensures Located(was[i], sections)
    {
      assert MeasurableAt(was, sections, i);
    }
    AllLaidOut(was, symbols[..], sections);
    return true, k;
  }

  function LengthOf(symbols: seq<Symbol>, sections: seq<Section>, i: nat): int
    requires ImageBase(symbols) < i < |symbols| && AllLocated(symbols, sections)
    ensures MeasurableAt(symbols, sections, i)
  {
    Measured(symbols, sections, i).length
  }

  lemma LengthEnds(symbols: seq<Symbol>, sections: seq<Section>, i: nat)
    requires AllLocated(symbols, sections) && ImageBase(symbols) < i < |symbols|
    ensures symbols[i].start + LengthOf(symbols, sections, i) ==
              if LastOfSegment(symbols, sections, i) then SectionOf(symbols[i], sections).End()
              else symbols[i + 1].start
  {
  }

  /** A length is negative exactly where the next symbol of the segment starts earlier. */
  lemma NegativeLengths(symbols: seq<Symbol>, sections: seq<Section>, i: nat)
    requires AllLocated(symbols, sections) && ImageBase(symbols) < i < |symbols|
    ensures LengthOf(symbols, sections, i) < 0 <==>
              !LastOfSegment(symbols, sections, i) && symbols[i + 1].start < symbols[i].start
  {
    hide SectionIndex;
    LengthEnds(symbols, sections, i);
    assert Holds(SectionOf(symbols[i], sections), symbols[i].start);
  }

  function SumLengths(symbols: seq<Symbol>, sections: seq<Section>, i: nat, j: nat): int
    requires ImageBase(symbols) < i <= j < |symbols| && AllLocated(symbols, sections)
    decreases j - i
  {
    LengthOf(symbols, sections, i) + if i == j then 0 else SumLengths(symbols, sections, i + 1, j)
  }

  /** Address a belongs to symbol k: it lies between the symbol's start and that plus its length. */
  predicate Owns(symbols: seq<Symbol>, sections: seq<Section>, k: nat, a: int)
    requires ImageBase(symbols) < k < |symbols| && AllLocated(symbols, sections)
  {
    symbols[k].start <= a < symbols[k].start + LengthOf(symbols, sections, k)
  }

  /** In a run of symbols of one segment with starts that never decrease, each address from the first
      start to the end of the last symbol's section belongs to exactly one symbol. */
  lemma {:induction false} RunTiles(symbols: seq<Symbol>, sections: seq<Section>, i: nat, j: nat, a: int)
    returns (k: nat)
    requires AllLocated(symbols, sections) && ImageBase(symbols) < i <= j < |symbols|
    requires forall m :: i <= m < j ==> !LastOfSegment(symbols, sections, m) && symbols[m].start <= symbols[m + 1].start
    requires LastOfSegment(symbols, sections, j)
    requires symbols[i].start <= a < SectionOf(symbols[j], sections).End()
    ensures i <= k <= j && Owns(symbols, sections, k, a)
    ensures forall m :: i <= m <= j && Owns(symbols, sections, m, a) ==> m == k
    decreases j - i
  {
    hide SectionOf, ImageBase, AllLocated;
    LengthEnds(symbols, sections, i);
    if i == j {
      k := i;
    } else if a < symbols[i + 1].start {
      k := i;
      StartsAscend(symbols, i + 1, j);
    } else {
      k := RunTiles(symbols, sections, i + 1, j, a);
    }
  }

  lemma {:induction false} StartsAscend(symbols: seq<Symbol>, i: nat, j: nat)
    requires i <= j < |symbols| && forall m :: i <= m < j ==> symbols[m].start <= symbols[m + 1].start
    ensures forall m :: i <= m <= j ==> symbols[i].start <= symbols[m].start
    decreases j - i
  {
    if i < j {
      StartsAscend(symbols, i + 1, j);
    }
  }

  /** A run of symbols of one segment covers exactly the space from the first symbol to the end of
      the last symbol's section. */
  lemma {:induction false} SegmentRunCovers(symbols: seq<Symbol>, sections: seq<Section>, i: nat, j: nat)
    requires AllLocated(symbols, sections) && ImageBase(symbols) < i <= j < |symbols|
    requires forall k :: i <= k < j ==> !LastOfSegment(symbols, sections, k)
    requires LastOfSegment(symbols, sections, j)
    ensures SumLengths(symbols, sections, i, j) == SectionOf(symbols[j], sections).End() - symbols[i].start
    decreases j - i
  {
    if i < j {
      assert !LastOfSegment(symbols, sections, i);
      assert LengthOf(symbols, sections, i) == symbols[i + 1].start - symbols[i].start;
      SegmentRunCovers(symbols, sections, i + 1, j);
    }
  }
}
