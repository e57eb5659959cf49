/** Gram amounts in two machine words (tlb/grams128.go): read, written and added without wider integers. */
module Grams {
  import opened Options
  import opened Powers
  import opened BitNumbers
  import opened VarUints
  import opened U128s

  function BitLen64(x: nat): nat {
    if x == 0 then 0 else 1 + BitLen64(x / 2)
  }

  function BitLen(g: U128): nat {
    if g.hi != 0 then 64 + BitLen64(g.hi) else BitLen64(g.lo)
  }

  lemma {:induction false} BitLen64Is(x: nat, k: nat)
    ensures BitLen64(x) <= k <==> x < Pow2(k)
  {
    if x > 0 && k > 0 {
      BitLen64Is(x / 2, k - 1);
    }
  }

  lemma BitLenIs(g: U128, k: nat)
    ensures BitLen(g) <= k <==> g.Value() < Pow2(k)
  {
    Pow2Of64();
    if g.hi == 0 {
      BitLen64Is(g.lo, k);
    } else if k < 64 {
      Pow2Grows(k, 64);
    } else {
      BitLen64Is(g.hi, k - 64);
      Pow2Add(k - 64, 64);
      Scaled(g.hi, g.lo, Pow2(k - 64));
    }
  }

  lemma Scaled(hi: nat, lo: nat, p: nat)
    requires lo < W
    ensures hi * W + lo < p * W <==> hi < p
  {
  }

  function LoadGrams(bits: seq<bool>): Option<(U128, seq<bool>)> {
    if |bits| < 4 then None
    else
      LenField(bits[..4]);
      LoadBytes(Nat(bits[..4]), bits[4..])
  }

  function LoadBytes(len: nat, d: seq<bool>): Option<(U128, seq<bool>)>
    requires len < 16
  {
    if len == 0 then Some((U128(0, 0), d))
    else
      var words :- LoadWords(len, d);
      if BitLen(words.0) <= (len - 1) * 8 then None else Some(words)
  }

  /** The low word, or what is above it and then the low word. */
  function LoadWords(len: nat, d: seq<bool>): (r: Option<(U128, seq<bool>)>)
    requires len < 16
  {
    if len <= 8 then
      if |d| < 8 * len then None else U64Of(d[..8 * len]); Some((U128(0, Nat(d[..8 * len])), d[8 * len..]))
    else if |d| < 8 * (len - 8) + 64 then None
    else
      var (h, l) := (d[..8 * (len - 8)], d[8 * (len - 8)..8 * (len - 8) + 64]);
      U64Of(h); U64Of(l);
      Some((U128(Nat(h), Nat(l)), d[8 * (len - 8) + 64..]))
  }

  lemma U64Of(b: seq<bool>)
    ensures |b| <= 64 ==> Nat(b) < W
  {
    NatBound(b);
    Pow2Of64();
    if |b| <= 64 {
      Pow2Grows(|b|, 64);
    }
  }

  lemma WordsAre(len: nat, d: seq<bool>)
    requires len < 16
    ensures LoadWords(len, d).Some? <==> |d| >= 8 * len
    ensures LoadWords(len, d).Some? ==> LoadWords(len, d).value.0.Value() == Nat(d[..8 * len]) && LoadWords(len, d).value.1 == d[8 * len..]
  {
    if len > 8 && |d| >= 8 * len {
      var (h, l) := (d[..8 * (len - 8)], d[8 * (len - 8)..8 * (len - 8) + 64]);
      NatSplit(h, l);
      Pow2Of64();
      assert d[..8 * len] == h + l;
    }
  }

  lemma LenField(bits: seq<bool>)
    requires |bits| == 4
    ensures Nat(bits) < 16
  {
    NatBound(bits);
  }

  /** Reading grams is reading the canonical number. */
  lemma LoadGramsIs(bits: seq<bool>)
    ensures LoadGrams(bits).Some? <==> Take(4, bits).Some?
    ensures LoadGrams(bits).Some? ==>
              LoadGrams(bits).value.0.Value() == Take(4, bits).value.0 && LoadGrams(bits).value.1 == Take(4, bits).value.1
  {
    if |bits| >= 4 {
      LenField(bits[..4]);
      LoadBytesIs(Nat(bits[..4]), bits[4..]);
    }
  }

  lemma LoadBytesIs(len: nat, d: seq<bool>)
    requires len < 16
    ensures LoadBytes(len, d).Some? <==> TakeBytes(len, d).Some?
    ensures LoadBytes(len, d).Some? ==>
              LoadBytes(len, d).value.0.Value() == TakeBytes(len, d).value.0 && LoadBytes(len, d).value.1 == TakeBytes(len, d).value.1
  {
    WordsAre(len, d);
    if len > 0 && |d| >= 8 * len {
      BitLenIs(LoadWords(len, d).value.0, (len - 1) * 8);
    }
  }

  function StoreGrams(g: U128): Option<seq<bool>> {
    var len := (BitLen(g) + 7) / 8;
    if len >= 16 then None
    else if len <= 8 then Some(UintBits(len, 4) + UintBits(g.lo, 8 * len))
    else Some(UintBits(len, 4) + UintBits(g.hi, 8 * (len - 8)) + UintBits(g.lo, 64))
  }

  lemma LenIs(g: U128)
    ensures (BitLen(g) + 7) / 8 == ByteLen(g.Value())
  {
    var len := (BitLen(g) + 7) / 8;
    BitLenIs(g, 8 * len);
    if len > 0 {
      BitLenIs(g, 8 * (len - 1));
    }
    ByteLenUnique(g.Value(), len);
  }

  lemma TwoWords(g: U128, len: nat)
    requires 8 < len < 16 && g.Value() < Pow2(8 * len)
    ensures UintBits(g.hi, 8 * (len - 8)) + UintBits(g.lo, 64) == UintBits(g.Value(), 8 * len)
  {
    var (h, l) := (UintBits(g.hi, 8 * (len - 8)), UintBits(g.lo, 64));
    Pow2Of64();
    Pow2Add(8 * (len - 8), 64);
    Scaled(g.hi, g.lo, Pow2(8 * (len - 8)));
    NatOfBits(g.hi, 8 * (len - 8));
    NatOfBits(g.lo, 64);
    NatSplit(h, l);
    BitsOfNat(h + l);
  }

  /** Writing grams is writing the canonical number, up to fifteen bytes. */
  lemma StoreGramsIs(g: U128)
    ensures StoreGrams(g) == Put(g.Value(), 4)
  {
    var len := ByteLen(g.Value());
    LenIs(g);
    ByteLenIs(g.Value());
    assert Pow2(4) == 16;
    if len <= 8 {
      NoHighWord(g, len);
    } else if len < 16 {
      TwoWords(g, len);
      assert UintBits(len, 4) + UintBits(g.hi, 8 * (len - 8)) + UintBits(g.lo, 64) ==
             UintBits(len, 4) + (UintBits(g.hi, 8 * (len - 8)) + UintBits(g.lo, 64));
    }
  }

  lemma NoHighWord(g: U128, len: nat)
    requires len <= 8 && g.Value() < Pow2(8 * len)
    ensures g.hi == 0 && g.lo == g.Value()
  {
    Pow2Grows(8 * len, 64);
    Pow2Of64();
  }
}
