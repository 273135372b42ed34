/** The reciprocal that a block header keeps for its object size. */
module ObjectInverse {
  import opened Words

  const MAXOBJBYTES := 0x8000

  /** The least c with c * sz >= 2^32. */
  function Ceiling(sz: nat): (c: nat)
    requires sz > 0
  {
    (WORD + sz - 1) / sz
  }

  /** Multiples of b are at least b apart. */
  lemma MultiplesApart(x: nat, y: nat, b: nat)
    ensures x < y ==> x * b + b <= y * b
  {
    if x < y {
      assert (x + 1) * b == x * b + b;
      assert (y - (x + 1)) * b == y * b - (x + 1) * b;
    }
  }

  /** An interval shorter than b holds one multiple of b. */
  lemma OneMultiple(x: nat, y: nat, b: nat, from: nat)
    requires from <= x * b < from + b && from <= y * b < from + b
    ensures x == y
  {
    MultiplesApart(x, y, b);
    MultiplesApart(y, x, b);
  }

  lemma CeilingIsLeast(sz: nat)
    requires sz > 0
    ensures WORD <= Ceiling(sz) * sz < WORD + sz
  {
    var a, c := WORD + sz - 1, Ceiling(sz);
    assert c * sz <= a < c * sz + sz;
  }

  /** The product is 2^32 itself exactly when sz divides it, as a power of two does. */
  lemma ProductExact(sz: nat)
    requires sz > 0
    ensures Ceiling(sz) * sz == WORD <==> WORD % sz == 0
  {
    hide Ceiling;
    CeilingIsLeast(sz);
    var c, q := Ceiling(sz), WORD / sz;
    Division(sz);
    if WORD % sz == 0 {
      OneMultiple(c, q, sz, WORD);
    } else if c * sz == WORD {
      OneMultiple(c, q, sz, q * sz);
    }
  }

  lemma Division(sz: nat)
    requires sz > 0
    ensures WORD == WORD / sz * sz + WORD % sz
  {
  }

  /** The 64-bit computation of `hb_inv_sz`. */
  method Inverse64(sz: nat) returns (inv: nat)
    requires 4 <= sz <= MAXOBJBYTES
    ensures inv == Ceiling(sz)
  {
    CeilingIsLeast(sz);
    Division(sz);
    inv := WORD / sz;
    ghost var q := inv;
    if inv * sz / WORD == 0 {
      inv := inv + 1;
      assert inv * sz == q * sz + sz;
    }
    OneMultiple(Ceiling(sz), inv, sz, WORD);
  }

  /** The 32-bit computation: the product wraps, and the loop stops at the same value. */
  method Inverse32(sz: nat) returns (inv: nat)
    requires 4 <= sz <= MAXOBJBYTES
    ensures inv == Ceiling(sz)
  {
    CeilingIsLeast(sz);
    ghost var c := Ceiling(sz);
    inv := SIGN / sz;
    HalfWord(inv, sz, c);
    inv := inv * 2;
    while inv * sz % WORD > sz
      invariant inv <= c && WORD - 2 * sz < inv * sz
      decreases c - inv
    {
      LoopTest(inv, c, sz);
      assert (inv + 1) * sz == inv * sz + sz;
      inv := inv + 1;
    }
    LoopTest(inv, c, sz);
  }

  /** The wrapped product exceeds sz exactly below the ceiling. */
  lemma LoopTest(i: nat, c: nat, sz: nat)
    requires 0 < sz <= MAXOBJBYTES && i <= c && WORD <= c * sz < WORD + sz && WORD - 2 * sz < i * sz
    ensures i * sz % WORD > sz <==> i < c
  {
    MultiplesApart(i, c, sz);
    var x := i * sz;
    assert i < c ==> x < WORD;
    assert i == c ==> WORD <= x < WORD + sz;
  }

  lemma HalfWord(h: nat, sz: nat, c: nat)
    requires 4 <= sz && h == SIGN / sz && WORD <= c * sz
    ensures 2 * h <= c && WORD - 2 * sz < 2 * h * sz
  {
    assert h * sz <= SIGN < h * sz + sz;
    assert 2 * h * sz == 2 * (h * sz);
    MultiplesApart(c, 2 * h, sz);
  }

  /** Multiplying by the inverse and shifting divides exactly every displacement within a block. */
  lemma DivisionIsExact(sz: nat, d: nat)
    requires 4 <= sz <= MAXOBJBYTES && d < HBLKSIZE
    ensures d * Ceiling(sz) / WORD == d / sz
  {
    hide Ceiling;
    CeilingIsLeast(sz);
    var q, r := QuotientAndRest(d, sz);
    var inv := Ceiling(sz);
    assert d * inv / WORD == q by {
      ExactFor(sz, d, inv, q, r);
    }
  }

  lemma QuotientAndRest(d: nat, sz: nat) returns (q: nat, r: nat)
    requires sz > 0
    ensures q == d / sz && d == q * sz + r && r < sz
  {
    q, r := d / sz, d % sz;
  }

  lemma ExactFor(sz: nat, d: nat, inv: nat, q: nat, r: nat)
    requires 4 <= sz <= MAXOBJBYTES && d < HBLKSIZE && d == q * sz + r && r < sz
    requires WORD <= inv * sz < WORD + sz
    ensures d * inv / WORD == q
  {
    var e := inv * sz - WORD;
    InverseLarge(sz, inv);
    Expand(d, inv, q, sz, r, e);
    SmallTerms(sz, inv, q, r, e, d);
    WordQuotient(d * inv, q, q * e + r * inv);
  }

  lemma WordQuotient(a: nat, q: nat, rest: nat)
    requires a == q * WORD + rest && rest < WORD
    ensures a / WORD == q
  {
  }

  lemma Expand(d: nat, inv: nat, q: nat, sz: nat, r: nat, e: nat)
    requires d == q * sz + r && inv * sz == WORD + e
    ensures d * inv == q * WORD + q * e + r * inv
  {
    calc {
      d * inv;
    ==
      (q * sz + r) * inv;
    ==
      (q * sz) * inv + r * inv;
    ==
      q * (inv * sz) + r * inv;
    ==
      q * (WORD + e) + r * inv;
    ==
      q * WORD + q * e + r * inv;
    }
  }

  lemma InverseLarge(sz: nat, inv: nat)
    requires 0 < sz <= MAXOBJBYTES && inv * sz >= WORD
    ensures inv >= 0x2_0000
  {
    MultiplesApart(inv, 0x2_0000, sz);
  }

  lemma SmallTerms(sz: nat, inv: nat, q: nat, r: nat, e: nat, d: nat)
    requires 4 <= sz && d < HBLKSIZE && d == q * sz + r && r < sz
    requires inv * sz == WORD + e && e < sz <= MAXOBJBYTES && inv >= 0x2_0000
    ensures q * e + r * inv < WORD
  {
    Monotone(e, sz, q);
    Monotone(r, sz - 1, inv);
    assert (sz - 1) * inv == inv * sz - inv;
  }

  lemma Monotone(x: nat, y: nat, b: nat)
    requires x <= y
    ensures b * x <= b * y && x * b <= y * b
  {
    assert b * (y - x) == b * y - b * x;
  }
}
