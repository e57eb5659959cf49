/** Unsigned machine words of a fixed width as their bits, least significant first, with two's-complement arithmetic
    as the ripple of a carry. */
module Bits {
  import opened Powers

  type Bits = seq<bool>

  const WIDTH: nat := 64

  /** A 64-bit word. */
  type Word = w: Bits | |w| == WIDTH witness Zeros(64)

  function Zeros(n: nat): (r: Bits)
    ensures |r| == n
  {
    seq(n, _ => false)
  }

  function Ones(n: nat): (r: Bits)
    ensures |r| == n
  {
    seq(n, _ => true)
  }

  function Not(a: Bits): (r: Bits)
    ensures |r| == |a|
  {
    seq(|a|, i requires 0 <= i < |a| => !a[i])
  }

  function And(a: Bits, b: Bits): (r: Bits)
    requires |a| == |b|
    ensures |r| == |a|
  {
    seq(|a|, i requires 0 <= i < |a| => a[i] && b[i])
  }

  function Or(a: Bits, b: Bits): (r: Bits)
    requires |a| == |b|
    ensures |r| == |a|
  {
    seq(|a|, i requires 0 <= i < |a| => a[i] || b[i])
  }

  function Xor(a: Bits, b: Bits): (r: Bits)
    requires |a| == |b|
    ensures |r| == |a|
  {
    seq(|a|, i requires 0 <= i < |a| => a[i] != b[i])
  }

  function Shl(a: Bits, n: nat): (r: Bits)
    ensures |r| == |a|
  {
    seq(|a|, k requires 0 <= k < |a| => k >= n && a[k - n])
  }

  function Shr(a: Bits, n: nat): (r: Bits)
    ensures |r| == |a|
  {
    seq(|a|, k requires 0 <= k < |a| => k + n < |a| && a[k + n])
  }

  function Shl1(a: Bits): (r: Bits)
    ensures |r| == |a|
  {
    if a == [] then [] else [false] + a[..|a| - 1]
  }

  function Shr1(a: Bits): (r: Bits)
    ensures |r| == |a|
  {
    if a == [] then [] else a[1..] + [false]
  }

  /** Sum with carry in; the carry out of the top bit is lost. */
  function Add(a: Bits, b: Bits, carry: bool): (r: Bits)
    requires |a| == |b|
    ensures |r| == |a|
  {
    if a == [] then []
    else
      var two := (a[0] && b[0]) || (a[0] && carry) || (b[0] && carry);
      [(a[0] != b[0]) != carry] + Add(a[1..], b[1..], two)
  }

  function Plus(a: Bits, b: Bits): (r: Bits)
    requires |a| == |b|
    ensures |r| == |a|
  {
    Add(a, b, false)
  }

  function Sub(a: Bits, b: Bits): (r: Bits)
    requires |a| == |b|
    ensures |r| == |a|
  {
    Add(a, Not(b), true)
  }

  /** The two's complement, `^x + 1`. */
  function Negate(a: Bits): (r: Bits)
    ensures |r| == |a|
  {
    Add(Not(a), Zeros(|a|), true)
  }

  /** Unsigned comparison. */
  predicate Geq(a: Bits, b: Bits)
    requires |a| == |b|
  {
    if a == [] then true
    else
      var top := |a| - 1;
      if a[top] != b[top] then a[top] else Geq(a[..top], b[..top])
  }

  /** The number a word stands for, and the word for a number. */
  function Value(b: Bits): nat {
    if b == [] then 0 else (if b[0] then 1 else 0) + 2 * Value(b[1..])
  }

  function OfNat(n: nat, w: nat): (b: Bits)
    ensures |b| == w
  {
    if w == 0 then [] else [n % 2 == 1] + OfNat(n / 2, w - 1)
  }

  lemma {:induction false} OfNatValue(b: Bits)
    ensures OfNat(Value(b), |b|) == b && Value(b) < Pow2(|b|)
  {
    if b != [] {
      OfNatValue(b[1..]);
    }
  }
}
