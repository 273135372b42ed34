/** The binary symbol file: which symbols are written, and how. */
module SymbolFile {
  import opened MapLayout

  type Byte = b: nat | b < 256

  const HASH_LENGTH := 40

  // ---- The name filter ----

  predicate IsHexDigit(c: char) {
    '0' <= c <= '9' || 'A' <= c <= 'F'
  }

  predicate MarkAt(name: string, i: int) {
    0 <= i < |name| - 1 && name[i] == '_' && name[i + 1] == 'm'
  }

  /** `name.rfind("_m")` among positions before end. */
  function LastMark(name: string, end: nat): (r: Option<nat>)
    requires end <= |name|
    ensures r.Some? ==> r.value < end && MarkAt(name, r.value) && forall j :: r.value < j < end ==> !MarkAt(name, j)
    ensures r.None? ==> forall j :: 0 <= j < end ==> !MarkAt(name, j)
  {
    if end == 0 then None
    else if MarkAt(name, end - 1) then Some(end - 1)
    else LastMark(name, end - 1)
  }

  predicate AllHexFrom(name: string, from: nat) {
    forall i :: from <= i < |name| ==> IsHexDigit(name[i])
  }

  /** `ShouldWriteSymbol`. */
  predicate ShouldWriteSymbol(y: Symbol) {
    && y.segmentType == Code
    && var index := LastMark(y.name, |y.name|);
      index.Some? && |y.name| == index.value + 2 + HASH_LENGTH && AllHexFrom(y.name, index.value + 2)
  }

  /** Prefix, `_m`, forty upper-case hexadecimal digits. */
  ghost predicate IsManagedName(name: string) {
    exists prefix, hash: string :: name == prefix + "_m" + hash && IsHash(hash)
  }

  predicate IsHash(hash: string) {
    |hash| == 40 && forall i :: 0 <= i < 40 ==> hash[i] in "0123456789ABCDEF"
  }

  lemma HexDigits(c: char)
    ensures IsHexDigit(c) <==> c in "0123456789ABCDEF"
  {
    var digits := "0123456789ABCDEF";
    if '0' <= c <= '9' {
      assert digits[c as int - '0' as int] == c;
    } else if 'A' <= c <= 'F' {
      assert digits[c as int - 'A' as int + 10] == c;
    }
  }

  lemma HashIs(hash: string)
    ensures IsHash(hash) <==> |hash| == HASH_LENGTH && AllHexFrom(hash, 0)
  {
    forall i | 0 <= i < |hash|
      ensures IsHexDigit(hash[i]) <==> hash[i] in "0123456789ABCDEF"
    {
      HexDigits(hash[i]);
    }
  }

  /** The search for the last mark accepts exactly the code symbols with a managed method's name. */
  lemma FilterIsDeclarative(y: Symbol)
    ensures ShouldWriteSymbol(y) <==> y.segmentType == Code && IsManagedName(y.name)
  {
    hide IsHash;
    if ShouldWriteSymbol(y) {
      var i := LastMark(y.name, |y.name|).value;
      HashIs(y.name[i + 2..]);
      assert y.name == y.name[..i] + "_m" + y.name[i + 2..];
    }
    if IsManagedName(y.name) {
      var prefix, hash: string :| y.name == prefix + "_m" + hash && IsHash(hash);
      HashIs(hash);
      ManagedMark(y.name, prefix, hash);
    }
  }

  lemma ManagedMark(name: string, prefix: string, hash: string)
    requires name == prefix + "_m" + hash && AllHexFrom(hash, 0)
    ensures LastMark(name, |name|) == Some(|prefix|) && AllHexFrom(name, |prefix| + 2)
  {
    assert MarkAt(name, |prefix|);
    forall j | |prefix| < j < |name|
      ensures !MarkAt(name, j)
    {
      assert j > |prefix| + 1 ==> name[j] == hash[j - |prefix| - 2];
    }
    forall i | |prefix| + 2 <= i < |name|
      ensures IsHexDigit(name[i])
    {
      assert name[i] == hash[i - |prefix| - 2];
    }
  }

  // ---- Little-endian integers ----

  function Pow256(n: nat): (p: nat)
    ensures p > 0
  {
    if n == 0 then 1 else 256 * Pow256(n - 1)
  }

  /** The low n bytes of x, least significant first. */
  function LowBytes(x: int, n: nat): (b: seq<Byte>)
    ensures |b| == n
    decreases n
  {
    if n == 0 then [] else [x % 256] + LowBytes(x / 256, n - 1)
  }

  /** Byte i of n is the i-th base-256 digit of x, the least significant first. */
  lemma {:induction false} ByteOrder(x: int, n: nat, i: nat)
    requires i < n
    ensures LowBytes(x, n)[i] == x / Pow256(i) % 256
    decreases i
  {
    if i > 0 {
      ByteOrder(x / 256, n - 1, i - 1);
      assert x / Pow256(i) == x / 256 / Pow256(i - 1) by { DividedTwice(x, Pow256(i - 1)); }
    }
  }

  lemma DividedTwice(x: int, p: nat)
    requires p > 0
    ensures x / (256 * p) == x / 256 / p
  {
    var q, a := x / (256 * p), x / 256;
    var r := x - q * (256 * p);
    assert 0 <= r < 256 * p;
    assert q * (256 * p) == 256 * (q * p);
    assert a == q * p + r / 256;
    Quotient(a, p, q, r / 256);
  }

  lemma Quotient(a: int, p: nat, q: int, r: int)
    requires p > 0 && a == q * p + r && 0 <= r < p
    ensures a / p == q
  {
    var d, t := DivideInt(a, p);
    SameQuotient(d, t, q, r, p);
  }

  lemma DivideInt(a: int, p: nat) returns (d: int, t: int)
    requires p > 0
    ensures d == a / p && a == d * p + t && 0 <= t < p
  {
    d, t := a / p, a % p;
  }

  lemma SameQuotient(d: int, t: int, q: int, r: int, p: nat)
    requires d * p + t == q * p + r && 0 <= t < p && 0 <= r < p
    ensures d == q
  {
    AtLeast(d, q + 1, p);
    AtLeast(q, d + 1, p);
  }

  function Unsigned(b: seq<Byte>): nat {
    if b == [] then 0 else b[0] + 256 * Unsigned(b[1..])
  }

  /** The two's-complement value of b. */
  function Signed(b: seq<Byte>): int {
    if 2 * Unsigned(b) >= Pow256(|b|) then Unsigned(b) - Pow256(|b|) else Unsigned(b)
  }

  /** x is the value of its low bytes plus k units of the next byte. */
  lemma {:induction false} BytesModulo(x: int, n: nat) returns (k: int)
    ensures Unsigned(LowBytes(x, n)) < Pow256(n)
    ensures x == Unsigned(LowBytes(x, n)) + k * Pow256(n)
    decreases n
  {
    if n == 0 {
      k := x;
    } else {
      k := BytesModulo(x / 256, n - 1);
      assert LowBytes(x, n)[1..] == LowBytes(x / 256, n - 1);
      Carry(x, Unsigned(LowBytes(x / 256, n - 1)), k, Pow256(n - 1));
    }
  }

  lemma Carry(x: int, u: nat, k: int, p: nat)
    requires x / 256 == u + k * p
    ensures x == x % 256 + 256 * u + k * (256 * p)
  {
    assert 256 * (k * p) == k * (256 * p);
  }

  /** Encoding and decoding n bytes is the identity on the signed range. */
  lemma SignedBytes(x: int, n: nat)
    requires -(Pow256(n) as int) <= 2 * x < Pow256(n)
    ensures Signed(LowBytes(x, n)) == x
  {
    var k := BytesModulo(x, n);
    OnlyTwoResidues(x, Unsigned(LowBytes(x, n)), k, Pow256(n));
  }

  lemma OnlyTwoResidues(x: int, u: int, k: int, p: int)
    requires 0 <= u < p && x == u + k * p && -p <= 2 * x < p
    ensures k == if 2 * u >= p then -1 else 0
  {
    AtLeast(k, 1, p);
    AtLeast(-2, k, p);
  }

  lemma AtLeast(k: int, l: int, p: int)
    requires p > 0
    ensures k >= l ==> k * p >= l * p
  {
    if k >= l {
      assert (k - l) * p >= 0;
    }
  }

  // ---- The file ----

  /** What the file keeps of a symbol: its start and the low 32 bits of its length. */
  datatype Record = Record(start: int, length: int)

  function Kept(symbols: seq<Symbol>): (r: seq<Symbol>)
    ensures |r| <= |symbols|
  {
    if symbols == [] then []
    else
      var rest, last := Kept(symbols[..|symbols| - 1]), symbols[|symbols| - 1];
      if ShouldWriteSymbol(last) then rest + [last] else rest
  }

  /** The bytes of the kept symbols' records. */
  function RecordBytes(kept: seq<Symbol>): (b: seq<Byte>)
    ensures |b| == 12 * |kept|
  {
    if kept == [] then []
    else
      var last := kept[|kept| - 1];
      RecordBytes(kept[..|kept| - 1]) + LowBytes(last.start, 8) + LowBytes(last.length, 4)
  }

  lemma NothingKept()
    ensures Kept([]) == [] && RecordBytes([]) == []
  {
  }

  lemma KeptStep(symbols: seq<Symbol>, i: nat)
    requires i < |symbols|
    ensures Kept(symbols[..i + 1])
         == if ShouldWriteSymbol(symbols[i]) then Kept(symbols[..i]) + [symbols[i]] else Kept(symbols[..i])
  {
    hide ShouldWriteSymbol;
    assert symbols[..i + 1][..i] == symbols[..i];
  }

  lemma RecordBytesStep(kept: seq<Symbol>, y: Symbol)
    ensures RecordBytes(kept + [y]) == RecordBytes(kept) + LowBytes(y.start, 8) + LowBytes(y.length, 4)
  {
    hide LowBytes;
    assert (kept + [y])[..|kept|] == kept;
  }

  /** `SymbolInfoWriter::Write`. */
  method Write(symbols: seq<Symbol>) returns (out: seq<Byte>)
    ensures out == LowBytes(|Kept(symbols)|, 4) + RecordBytes(Kept(symbols))
  {
    hide LowBytes, ShouldWriteSymbol, Kept, RecordBytes;
    NothingKept();
    assert symbols[..0] == [];
    assert symbols[..|symbols|] == symbols;
    var numberOfSymbols := 0;
    for i := 0 to |symbols|
      invariant numberOfSymbols == |Kept(symbols[..i])|
    {
      KeptStep(symbols, i);
      if ShouldWriteSymbol(symbols[i]) {
        numberOfSymbols := numberOfSymbols + 1;
      }
    }
    out := LowBytes(numberOfSymbols, 4);
    ghost var header := out;
    for i := 0 to |symbols|
      invariant out == header + RecordBytes(Kept(symbols[..i]))
    {
      KeptStep(symbols, i);
      if ShouldWriteSymbol(symbols[i]) {
        RecordBytesStep(Kept(symbols[..i]), symbols[i]);
        out := out + LowBytes(symbols[i].start, 8);
        out := out + LowBytes(symbols[i].length, 4);
      }
    }
  }

  // ---- Reading it back ----

  datatype File = File(count: int, records: seq<Record>)

  /** The header and the 12-byte records that follow it. */
  function Decode(bytes: seq<Byte>): (f: Option<File>) {
    if |bytes| < 4 || (|bytes| - 4) % 12 != 0 then None
    else Some(File(Signed(bytes[..4]), DecodeRecords(bytes[4..])))
  }

  function DecodeRecords(bytes: seq<Byte>): (r: seq<Record>)
    requires |bytes| % 12 == 0
    ensures |r| == |bytes| / 12
  {
    if bytes == [] then []
    else [Record(Signed(bytes[..8]), Signed(bytes[8..12]))] + DecodeRecords(bytes[12..])
  }

  predicate Int64(x: int) {
    -0x8000_0000_0000_0000 <= x < 0x8000_0000_0000_0000
  }

  predicate Int32(x: int) {
    -0x8000_0000 <= x < 0x8000_0000
  }

  /** The low 32 bits of x as a signed integer. */
  function Low32(x: int): (r: int)
    ensures Int32(r)
    ensures Int32(x) ==> r == x
  {
    (x + 0x8000_0000) % 0x1_0000_0000 - 0x8000_0000
  }

  function RecordOf(y: Symbol): Record {
    Record(y.start, Low32(y.length))
  }

  lemma Pow256s()
    ensures Pow256(4) == 0x1_0000_0000 && Pow256(8) == 0x1_0000_0000_0000_0000
  {
    assert Pow256(2) == 0x1_0000;
    assert Pow256(4) == 256 * Pow256(3) == 0x1_0000 * Pow256(2);
    assert Pow256(6) == 256 * Pow256(5) == 0x1_0000 * Pow256(4);
    assert Pow256(8) == 256 * Pow256(7) == 0x1_0000 * Pow256(6);
  }

  lemma Residue(x: int, u: int, k: int)
    requires 0 <= u < 0x1_0000_0000 && x == u + k * 0x1_0000_0000
    ensures Low32(x) == if 2 * u >= 0x1_0000_0000 then u - 0x1_0000_0000 else u
  {
  }

  /** Four written bytes of any integer read back as its low 32 bits. */
  lemma LowBytesAreLow32(x: int)
    ensures Signed(LowBytes(x, 4)) == Low32(x)
  {
    hide LowBytes, Unsigned, Pow256;
    Pow256s();
    var k := BytesModulo(x, 4);
    Residue(x, Unsigned(LowBytes(x, 4)), k);
  }

  lemma RecordReadsBack(y: Symbol)
    requires Int64(y.start)
    ensures var b := LowBytes(y.start, 8) + LowBytes(y.length, 4);
      DecodeRecords(b) == [RecordOf(y)]
  {
    var b := LowBytes(y.start, 8) + LowBytes(y.length, 4);
    Pow256s();
    SignedBytes(y.start, 8);
    LowBytesAreLow32(y.length);
    assert b[..8] == LowBytes(y.start, 8);
    assert b[8..12] == LowBytes(y.length, 4);
    assert b[12..] == [];
  }

  lemma {:induction false} DecodeAppends(a: seq<Byte>, b: seq<Byte>)
    requires |a| % 12 == 0 && |b| % 12 == 0
    ensures DecodeRecords(a + b) == DecodeRecords(a) + DecodeRecords(b)
  {
    hide Signed;
    if a == [] {
      assert a + b == b;
    } else {
      DecodeAppends(a[12..], b);
      assert (a + b)[..8] == a[..8];
      assert (a + b)[8..12] == a[8..12];
      assert (a + b)[12..] == a[12..] + b;
    }
  }

  lemma NoRecords()
    ensures DecodeRecords([]) == []
  {
  }

  function RecordsOf(kept: seq<Symbol>): (r: seq<Record>)
    ensures |r| == |kept|
  {
    seq(|kept|, i requires 0 <= i < |kept| => RecordOf(kept[i]))
  }

  lemma {:induction false} RecordsReadBack(kept: seq<Symbol>)
    requires forall y :: y in kept ==> Int64(y.start)
    ensures DecodeRecords(RecordBytes(kept)) == RecordsOf(kept)
  {
    hide LowBytes, DecodeRecords, RecordOf;
    if kept == [] {
      NoRecords();
    } else {
      var front, last := kept[..|kept| - 1], kept[|kept| - 1];
      var tail := LowBytes(last.start, 8) + LowBytes(last.length, 4);
      RecordsReadBack(front);
      RecordReadsBack(last);
      DecodeAppends(RecordBytes(front), tail);
      assert RecordBytes(kept) == RecordBytes(front) + tail;
      assert RecordsOf(kept) == RecordsOf(front) + [RecordOf(last)];
    }
  }

  lemma HeaderThenRecords(header: seq<Byte>, body: seq<Byte>)
    requires |header| == 4 && |body| % 12 == 0
    ensures Decode(header + body) == Some(File(Signed(header), DecodeRecords(body)))
  {
    hide Signed, DecodeRecords;
    assert (header + body)[..4] == header;
    assert (header + body)[4..] == body;
  }

  /** What was written reads back, in order, as the records of exactly the symbols that pass the filter. */
  lemma FileReadsBack(symbols: seq<Symbol>)
    requires forall y :: y in symbols ==> Int64(y.start)
    ensures Decode(LowBytes(|Kept(symbols)|, 4) + RecordBytes(Kept(symbols)))
         == Some(File(Low32(|Kept(symbols)|), RecordsOf(Kept(symbols))))
  {
    hide Kept, RecordBytes, RecordsOf, LowBytes, DecodeRecords, Signed, ShouldWriteSymbol, Low32;
    var kept := Kept(symbols);
    KeptFrom(symbols);
    LowBytesAreLow32(|kept|);
    RecordsReadBack(kept);
    HeaderThenRecords(LowBytes(|kept|, 4), RecordBytes(kept));
  }

  /** The header count is the number of records exactly as long as that fits a 32-bit integer. */
  lemma HeaderCounts(symbols: seq<Symbol>)
    ensures Low32(|Kept(symbols)|) == |RecordsOf(Kept(symbols))| <==> |Kept(symbols)| < 0x8000_0000
  {
  }

  /** Kept symbols are exactly those that pass the filter. */
  lemma {:induction false} KeptFrom(symbols: seq<Symbol>)
    ensures forall y :: y in Kept(symbols) <==> y in symbols && ShouldWriteSymbol(y)
  {
    if symbols != [] {
      var front := symbols[..|symbols| - 1];
      KeptFrom(front);
      assert symbols == front + [symbols[|symbols| - 1]];
    }
  }

  /** Kept symbols stay in the order in which they came. */
  lemma {:induction false} KeptInOrder(front: seq<Symbol>, back: seq<Symbol>)
    ensures Kept(front + back) == Kept(front) + Kept(back)
  {
    hide ShouldWriteSymbol;
    var symbols := front + back;
    if back == [] {
      assert symbols == front;
    } else {
      assert symbols[..|symbols| - 1] == front + back[..|back| - 1];
      KeptInOrder(front, back[..|back| - 1]);
    }
  }
}
