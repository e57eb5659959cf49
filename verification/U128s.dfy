/** Fixed-width arithmetic of the fee formulas (internal/fee/u128.go): two 64-bit words, exact wherever the result fits. */
module U128s {
  import opened Powers

  const W: int := 0x1_0000_0000_0000_0000

  type U64 = x: int | 0 <= x < W witness 0

  lemma Pow2Of64()
    ensures Pow2(64) == W
  {
    assert Pow2(2) == 4;
    Pow2Double(2, 4);
    Pow2Double(4, 16);
    Pow2Double(8, 0x100);
    Pow2Double(16, 0x1_0000);
    Pow2Double(32, 0x1_0000_0000);
  }

  /** The two factors of the word size that a shift by `n` splits it into. */
  lemma SplitWord(n: nat)
    requires 0 < n < 64
    ensures Pow2(n) * Pow2(64 - n) == W && 2 <= Pow2(n) && 2 <= Pow2(64 - n)
    ensures Pow2(n) < W && Pow2(64 - n) < W
  {
    Pow2Of64();
    Pow2Add(n, 64 - n);
    FactorSmaller(Pow2(n), Pow2(64 - n), W);
  }

  lemma FactorSmaller(p: nat, q: nat, w: nat)
    requires p * q == w && 2 <= p && 2 <= q
    ensures p < w && q < w
  {
    assert p * q >= p * 2;
    assert p * q >= 2 * q;
  }

  function Add64(a: U64, b: U64, carry: nat): (r: (U64, nat))
    requires carry <= 1
    ensures r.0 + r.1 * W == a + b + carry && r.1 <= 1
  {
    ((a + b + carry) % W, (a + b + carry) / W)
  }

  /** The two words of a product. */
  function MulWords(a: U64, b: U64): (r: (U64, U64))
    ensures r.0 * W + r.1 == a * b
  {
    ProductBound(a, b);
    ((a * b) / W, (a * b) % W)
  }

  lemma MulLe(a: nat, b: nat, c: nat)
    requires a <= b
    ensures a * c <= b * c
  {
  }

  lemma ProductBound(a: U64, b: U64)
    ensures 0 <= a * b && (a * b) / W < W
  {
    MulLe(a, W - 1, b);
    QuotientBound(a * b);
  }

  lemma QuotientBound(x: nat)
    requires x < W * W
    ensures x / W < W
  {
  }

  /** Bitwise or. */
  function Or(a: nat, b: nat): nat {
    if a == 0 && b == 0 then 0
    else (if a % 2 == 1 || b % 2 == 1 then 1 else 0) + 2 * Or(a / 2, b / 2)
  }

  /** Or-ing a multiple of `2^k` with a number below `2^k` adds them. */
  lemma {:induction false} OrAdds(m: nat, k: nat, low: nat)
    requires low < Pow2(k)
    ensures Or(m * Pow2(k), low) == m * Pow2(k) + low
  {
    if k == 0 {
      OrZero(m);
    } else {
      Halves(m, Pow2(k - 1));
      OrAdds(m, k - 1, low / 2);
    }
  }

  lemma Halves(m: nat, p: nat)
    ensures m * (2 * p) % 2 == 0 && m * (2 * p) / 2 == m * p
  {
    assert m * (2 * p) == 2 * (m * p);
  }

  lemma {:induction false} OrZero(m: nat)
    ensures Or(m, 0) == m
  {
    if m > 0 {
      OrZero(m / 2);
    }
  }

  /** Shifts of a 64-bit word. */
  function Shl(x: nat, n: nat): nat {
    x * Pow2(n) % W
  }

  function Shr(x: nat, n: nat): nat {
    Quotient(x, Pow2(n))
  }

  function Quotient(x: nat, d: nat): nat
    requires d > 0
  {
    x / d
  }

  function Ceil(x: nat, d: nat): nat
    requires d > 0
  {
    (x + d - 1) / d
  }

  datatype U128 = U128(hi: U64, lo: U64) {
    function Value(): nat {
      hi * W + lo
    }

    function Add(b: U128): (r: (U128, bool))
      ensures r.1 <==> Value() + b.Value() < W * W
      ensures r.0.Value() == if r.1 then Value() + b.Value() else Value() + b.Value() - W * W
    {
      var (l, c) := Add64(lo, b.lo, 0);
      var (h, c') := Add64(hi, b.hi, c);
      (U128(h, l), c' == 0)
    }

    function Mul64(b: U64): (r: (U128, bool))
      ensures r.1 <==> Value() * b < W * W
      ensures r.1 ==> r.0.Value() == Value() * b
    {
      var (hiHi, hiLo) := MulWords(hi, b);
      var (loHi, l) := MulWords(lo, b);
      var (h, c) := Add64(hiLo, loHi, 0);
      MulColumns(hi, lo, b, hiHi, hiLo, loHi, l, h, c);
      (U128(h, l), hiHi == 0 && c == 0)
    }

    /** Rounds up, keeping the carry that the rounding may push out of 128 bits. */
    function CeilShr(n: nat): (r: U128)
      requires 0 < n < 64
      ensures r.Value() == Ceil(Value(), Pow2(n))
    {
      SplitWord(n);
      var (l, c) := Add64(lo, Pow2(n) - 1, 0);
      var (h, c') := Add64(hi, 0, c);
      ShiftedWords(Value(), n, l, h, c');
      U128(Or(Shl(c', 64 - n), Shr(h, n)), Or(Shl(h, 64 - n), Shr(l, n)))
    }
  }

  lemma MulColumns(hi: U64, lo: U64, b: U64, hiHi: U64, hiLo: U64, loHi: U64, l: U64, h: U64, c: nat)
    requires hiHi * W + hiLo == hi * b && loHi * W + l == lo * b && h + c * W == hiLo + loHi
    ensures (hi * W + lo) * b == (hiHi + c) * (W * W) + h * W + l
    ensures hiHi == 0 && c == 0 <==> (hi * W + lo) * b < W * W
  {
    assert (hi * W + lo) * b == (hi * b) * W + lo * b;
  }

  /** The two words after the shift; the or-ed halves are disjoint. */
  lemma ShiftedWords(v: nat, n: nat, l: U64, h: U64, c: nat)
    requires 0 < n < 64 && c <= 1 && v + Pow2(n) - 1 == c * (W * W) + h * W + l
    ensures Or(Shl(c, 64 - n), Shr(h, n)) < W && Or(Shl(h, 64 - n), Shr(l, n)) < W
    ensures Or(Shl(c, 64 - n), Shr(h, n)) * W + Or(Shl(h, 64 - n), Shr(l, n)) == Ceil(v, Pow2(n))
  {
    SplitWord(n);
    ShiftedWord(n, c, h);
    ShiftedWord(n, h, l);
    SmallMod(c, Pow2(n));
    CeilColumns(v, Pow2(n), Pow2(64 - n), W, l, h, c);
  }

  lemma SmallMod(x: nat, p: nat)
    requires x < p
    ensures x % p == x
  {
  }

  /** A word of a double-word right shift: the low bits of the word above, then the high bits of this one. */
  lemma ShiftedWord(n: nat, above: U64, x: U64)
    requires 0 < n < 64
    ensures Or(Shl(above, 64 - n), Shr(x, n)) == above % Pow2(n) * Pow2(64 - n) + x / Pow2(n) < W
  {
    SplitWord(n);
    DivBelow(x, Pow2(n), Pow2(64 - n));
    ShlWraps(above, Pow2(n), Pow2(64 - n));
    OrAdds(above % Pow2(n), 64 - n, Shr(x, n));
    TopFits(above % Pow2(n), Pow2(n), Pow2(64 - n), x / Pow2(n));
  }

  lemma DivBelow(x: nat, p: nat, q: nat)
    requires p > 0 && x < p * q
    ensures x / p < q
  {
    QuotientLe(x, p);
    MulStrict(x / p, q, p);
  }

  lemma QuotientLe(x: nat, p: nat)
    requires p > 0
    ensures x / p * p <= x
  {
  }

  lemma MulStrict(a: nat, b: nat, c: nat)
    requires a * c < b * c
    ensures a < b
  {
  }

  lemma TopFits(a: nat, p: nat, q: nat, b: nat)
    requires a < p && b < q
    ensures a * q + b < p * q
  {
    assert (a + 1) * q <= p * q;
  }

  lemma ShlWraps(h: nat, p: nat, q: nat)
    requires p > 0 && q > 0 && p * q == W
    ensures h * q % W == h % p * q
  {
    assert h * q == (h / p * p + h % p) * q == h / p * W + h % p * q;
    TopFits(h % p, p, q, 0);
    ModUnique(h * q, h / p, h % p * q);
  }

  lemma ModUnique(x: nat, k: nat, r: nat)
    requires x == k * W + r && r < W
    ensures x % W == r
  {
  }

  lemma CeilColumns(v: nat, p: nat, q: nat, w: nat, l: nat, h: nat, c: nat)
    requires p > 0 && p * q == w && v + p - 1 == c * (w * w) + h * w + l
    ensures (c * q + h / p) * w + (h % p * q + l / p) == Ceil(v, p)
  {
    Columns(p, q, w, l, h, c);
    Regroup(v, p, w, c * q, h / p, h % p * q, l / p, l % p);
  }

  lemma Regroup(v: nat, p: nat, w: nat, a: nat, b: nat, d: nat, e: nat, f: nat)
    requires f < p && v + p - 1 == (a * w + b * w + d + e) * p + f
    ensures (a + b) * w + (d + e) == Ceil(v, p)
  {
    Distribute(a, b, w);
    DivUnique(v + p - 1, a * w + b * w + d + e, p, f);
  }

  lemma Columns(p: nat, q: nat, w: nat, l: nat, h: nat, c: nat)
    requires p > 0 && p * q == w
    ensures c * (w * w) + h * w + l == (c * q * w + h / p * w + h % p * q + l / p) * p + l % p
  {
    Column2(c, p, q, w);
    Column1(h, p, q, w);
    Gathered(c * (w * w), h * w, l, c * q * w, h / p * w, h % p * q, p);
  }

  lemma Gathered(a: nat, b: nat, l: nat, x: nat, y: nat, z: nat, p: nat)
    requires p > 0 && a == x * p && b == y * p + z * p
    ensures a + b + l == (x + y + z + l / p) * p + l % p
  {
    Gather(x, y, z, l, p);
  }

  lemma Gather(x: nat, y: nat, z: nat, l: nat, p: nat)
    requires p > 0
    ensures x * p + y * p + z * p + l == (x + y + z + l / p) * p + l % p
  {
    assert l == l / p * p + l % p;
    assert (x + y + z + l / p) * p == x * p + y * p + z * p + l / p * p;
  }

  lemma Distribute(a: nat, b: nat, w: nat)
    ensures (a + b) * w == a * w + b * w
  {
  }

  lemma Column2(c: nat, p: nat, q: nat, w: nat)
    requires p * q == w
    ensures c * (w * w) == c * q * w * p
  {
    assert c * (w * w) == c * w * w == c * w * (p * q);
  }

  lemma Column1(h: nat, p: nat, q: nat, w: nat)
    requires p > 0 && p * q == w
    ensures h * w == h / p * w * p + h % p * q * p
  {
    assert h == h / p * p + h % p;
    assert h % p * q * p == h % p * w;
  }

  lemma DivUnique(x: nat, k: nat, d: nat, r: nat)
    requires d > 0 && x == k * d + r && r < d
    ensures x / d == k
  {
    DivBelow(x, d, k + 1);
    MulStrict(k, x / d + 1, d);
  }

  function Product(a: U64, b: U64): (r: U128)
    ensures r.Value() == a * b
  {
    var (hi, lo) := MulWords(a, b);
    U128(hi, lo)
  }
}
