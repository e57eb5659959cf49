/** Numbers as bits, most significant first, the way cells store them. */
module BitNumbers {
  import opened Powers

  /** The low `w` bits of `n`, most significant first. */
  function UintBits(n: nat, w: nat): (b: seq<bool>)
    ensures |b| == w
  {
    seq(w, i requires 0 <= i < w => n / Pow2(w - 1 - i) % 2 == 1)
  }

  lemma LastBit(n: nat, w: nat)
    requires w > 0
    ensures UintBits(n, w) == UintBits(n / 2, w - 1) + [n % 2 == 1]
  {
    forall i | 0 <= i < w - 1
      ensures UintBits(n, w)[i] == UintBits(n / 2, w - 1)[i]
    {
      HalfThenRest(n, Pow2(w - 2 - i));
      assert Pow2(w - 1 - i) == 2 * Pow2(w - 2 - i);
    }
    assert Pow2(0) == 1;
    assert UintBits(n, w)[w - 1] == (n % 2 == 1);
  }

  function Nat(b: seq<bool>): nat {
    if b == [] then 0 else 2 * Nat(b[..|b| - 1]) + if b[|b| - 1] then 1 else 0
  }

  lemma {:induction false} NatOfBits(n: nat, w: nat)
    requires n < Pow2(w)
    ensures Nat(UintBits(n, w)) == n
  {
    if w > 0 {
      NatOfBits(n / 2, w - 1);
      LastBit(n, w);
      assert UintBits(n, w)[..w - 1] == UintBits(n / 2, w - 1);
    }
  }

  /** The leading bits of a number are the number shifted down. */
  lemma {:induction false} LeadingBits(n: nat, w: nat, k: nat)
    requires k <= w
    ensures UintBits(n, w)[..k] == UintBits(n / Pow2(w - k), k)
    decreases w - k
  {
    if k < w {
      LeadingBits(n / 2, w - 1, k);
      LastBit(n, w);
      assert UintBits(n, w)[..k] == UintBits(n / 2, w - 1)[..k];
      HalfThenRest(n, Pow2(w - 1 - k));
    }
  }

  lemma HalfThenRest(n: nat, m: nat)
    requires m > 0
    ensures n / 2 / m == n / (2 * m)
  {
    var q, r := n / (2 * m), n % (2 * m);
    assert n == 2 * m * q + r;
    assert n / 2 == m * q + r / 2;
    assert 0 <= r / 2 < m;
    QuotientIs(n / 2, m, q, r / 2);
  }

  lemma QuotientIs(a: nat, m: nat, q: nat, r: nat)
    requires m > 0 && a == m * q + r && r < m
    ensures a / m == q
  {
    var d := a / m;
    assert a == m * d + a % m;
    MulStep(m, d, q);
    MulStep(m, q, d);
  }

  lemma MulStep(m: nat, x: nat, y: nat)
    ensures x < y ==> m * x + m <= m * y
  {
    if x < y {
      assert m * (x + 1) <= m * y;
    }
  }
}
