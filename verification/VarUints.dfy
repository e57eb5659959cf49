/** Variable-length unsigned numbers in cells: a byte count and that many bytes, with no leading zero byte. */
module VarUints {
  import opened Options
  import opened Powers
  import opened BitNumbers

  function ByteLen(n: nat): nat {
    if n == 0 then 0 else 1 + ByteLen(n / 256)
  }

  lemma {:induction false} ByteLenIs(n: nat)
    ensures n < Pow2(8 * ByteLen(n))
    ensures n > 0 ==> ByteLen(n) > 0 && Pow2(8 * (ByteLen(n) - 1)) <= n
  {
    if n > 0 {
      ByteLenIs(n / 256);
      Pow2Byte(ByteLen(n / 256));
      if n / 256 > 0 {
        Pow2Byte(ByteLen(n / 256) - 1);
      }
    }
  }

  lemma Pow2Byte(k: nat)
    ensures Pow2(8 * (k + 1)) == 256 * Pow2(8 * k)
  {
    Pow2Add(8, 8 * k);
    assert Pow2(8) == 256 by {
      assert Pow2(4) == 16;
      Pow2Double(4, 16);
    }
  }

  lemma {:induction false} Pow2Grows(a: nat, b: nat)
    requires a <= b
    ensures Pow2(a) <= Pow2(b)
  {
    if a < b {
      Pow2Grows(a, b - 1);
    }
  }

  /** The byte length is the only one between the two powers. */
  lemma ByteLenUnique(n: nat, k: nat)
    requires n < Pow2(8 * k) && (k > 0 ==> Pow2(8 * (k - 1)) <= n)
    ensures ByteLen(n) == k
  {
    ByteLenIs(n);
    if k < ByteLen(n) {
      Pow2Grows(8 * k, 8 * (ByteLen(n) - 1));
    }
    if ByteLen(n) < k {
      Pow2Grows(8 * ByteLen(n), 8 * (k - 1));
    }
  }

  lemma {:induction false} NatBound(b: seq<bool>)
    ensures Nat(b) < Pow2(|b|)
  {
    if b != [] {
      NatBound(b[..|b| - 1]);
    }
  }

  lemma {:induction false} BitsOfNat(b: seq<bool>)
    ensures UintBits(Nat(b), |b|) == b
  {
    if b != [] {
      var front := b[..|b| - 1];
      BitsOfNat(front);
      LastBit(Nat(b), |b|);
      assert b == front + [b[|b| - 1]];
    }
  }

  lemma {:induction false} NatSplit(a: seq<bool>, b: seq<bool>)
    ensures Nat(a + b) == Nat(a) * Pow2(|b|) + Nat(b)
    decreases |b|
  {
    if b == [] {
      assert a + b == a;
    } else {
      var front := b[..|b| - 1];
      NatSplit(a, front);
      assert (a + b)[..|a + b| - 1] == a + front;
      assert Nat(a) * Pow2(|b|) == 2 * (Nat(a) * Pow2(|front|));
    }
  }

  /** Encodes with a length field of `l` bits. */
  function Put(v: nat, l: nat): Option<seq<bool>> {
    if ByteLen(v) >= Pow2(l) then None
    else Some(UintBits(ByteLen(v), l) + UintBits(v, 8 * ByteLen(v)))
  }

  function Take(l: nat, bits: seq<bool>): Option<(nat, seq<bool>)> {
    if |bits| < l then None else TakeBytes(Nat(bits[..l]), bits[l..])
  }

  function TakeBytes(len: nat, d: seq<bool>): Option<(nat, seq<bool>)> {
    if |d| < 8 * len then None
    else
      var v := Nat(d[..8 * len]);
      if len > 0 && v < Pow2(8 * (len - 1)) then None
      else Some((v, d[8 * len..]))
  }

  /** The form: the number of bytes, then that many bytes, the highest first and not zero. */
  lemma PutIs(v: nat, l: nat)
    requires Put(v, l).Some?
    ensures var b := Put(v, l).value;
            && |b| >= l && |b| == l + 8 * Nat(b[..l]) && Nat(b[l..]) == v
            && (v == 0 ==> |b| == l) && (v > 0 ==> Nat(b[..l]) > 0 && v >= Pow2(8 * (Nat(b[..l]) - 1)))
  {
    var b := Put(v, l).value;
    ByteLenIs(v);
    NatOfBits(ByteLen(v), l);
    NatOfBits(v, 8 * ByteLen(v));
    assert b[..l] == UintBits(ByteLen(v), l) && b[l..] == UintBits(v, 8 * ByteLen(v));
  }

  lemma TakePut(v: nat, l: nat, rest: seq<bool>)
    requires Put(v, l).Some?
    ensures Take(l, Put(v, l).value + rest) == Some((v, rest))
  {
    var n := ByteLen(v);
    var bits := Put(v, l).value + rest;
    ByteLenIs(v);
    NatOfBits(n, l);
    NatOfBits(v, 8 * n);
    assert bits[..l] == UintBits(n, l);
    assert bits[l..] == UintBits(v, 8 * n) + rest;
    assert bits[l..][..8 * n] == UintBits(v, 8 * n) && bits[l..][8 * n..] == rest;
  }

  /** Only the canonical encoding is read. */
  lemma PutTake(l: nat, bits: seq<bool>)
    requires Take(l, bits).Some?
    ensures var (v, rest) := Take(l, bits).value;
            Put(v, l).Some? && bits == Put(v, l).value + rest
  {
    var len, d := Nat(bits[..l]), bits[l..];
    var field := d[..8 * len];
    NatBound(bits[..l]);
    NatBound(field);
    ByteLenUnique(Nat(field), len);
    BitsOfNat(bits[..l]);
    BitsOfNat(field);
    assert bits == bits[..l] + field + d[8 * len..];
  }
}
