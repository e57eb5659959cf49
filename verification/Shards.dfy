/** Shard identifiers: a prefix closed by a marker bit, and the bit tricks on them (tlb/shard.go, tlb/processed_upto.go). */
module Shards {
  import opened Bits

  function LowerBit(x: Word): Word {
    And(x, Negate(x))
  }

  predicate ContainsPrefix(shard: Word, prefix: Word) {
    And(Xor(shard, prefix), Shl1(Negate(LowerBit(shard)))) == Zeros(WIDTH)
  }

  predicate IsAncestor(s: Word, of: Word) {
    && Geq(LowerBit(s), LowerBit(of))
    && And(Xor(s, of), Shl1(Negate(LowerBit(s)))) == Zeros(WIDTH)
  }

  function GetChild(s: Word, left: bool): Word {
    var y := Shr1(LowerBit(s));
    if left then Sub(s, y) else Plus(s, y)
  }

  function GetParent(s: Word): Word {
    var y := LowerBit(s);
    Or(Sub(s, y), Shl1(y))
  }

  predicate IsSibling(s: Word, other: Word) {
    Xor(s, other) != Zeros(WIDTH) && Xor(s, other) == Shl1(And(s, Negate(s)))
  }

  /** The word with a marker at `k` and the prefix bits `hi` above it. */
  function Marked(k: nat, hi: Bits): (w: Bits)
    ensures |w| == k + 1 + |hi|
  {
    Zeros(k) + [true] + hi
  }

  /** Every nonzero word is a marked prefix: the place of its marker. */
  function MarkerAt(s: Bits): (k: nat)
    requires true in s
    ensures k < |s| && s == Marked(k, s[k + 1..])
  {
    if s[0] then
      MarkerFirst(s);
      0
    else
      assert s == [false] + s[1..];
      var k := MarkerAt(s[1..]);
      MarkerLater(s, k);
      k + 1
  }

  lemma MarkerFirst(s: Bits)
    requires s != [] && s[0]
    ensures s == Marked(0, s[1..])
  {
  }

  lemma MarkerLater(s: Bits, k: nat)
    requires s != [] && !s[0] && k < |s| - 1 && s[1..] == Marked(k, s[1..][k + 1..])
    ensures s == Marked(k + 1, s[k + 2..])
  {
    var t := s[1..];
    assert s == [false] + t && t[k + 1..] == s[k + 2..];
    assert [false] + (Zeros(k) + [true] + s[k + 2..]) == Zeros(k + 1) + [true] + s[k + 2..];
  }

  lemma AddNothing(a: Bits)
    ensures Add(a, Zeros(|a|), false) == a
  {
    if a != [] {
      assert Zeros(|a|)[1..] == Zeros(|a| - 1);
      AddNothing(a[1..]);
    }
  }

  lemma AddCons(x: bool, a: Bits, y: bool, b: Bits, carry: bool)
    requires |a| == |b|
    ensures Add([x] + a, [y] + b, carry) == [(x != y) != carry] + Add(a, b, (x && y) || (x && carry) || (y && carry))
  {
    assert ([x] + a)[1..] == a && ([y] + b)[1..] == b;
  }

  lemma NegateCons(x: bool, a: Bits)
    ensures Negate([x] + a) == [x] + if x then Not(a) else Negate(a)
  {
    assert Not([x] + a) == [!x] + Not(a) && Zeros(|a| + 1) == [false] + Zeros(|a|);
    AddCons(!x, Not(a), false, Zeros(|a|), true);
    AddNothing(Not(a));
  }

  lemma {:induction false} NegateMarked(k: nat, hi: Bits)
    ensures Negate(Marked(k, hi)) == Marked(k, Not(hi))
  {
    if k == 0 {
      assert Marked(0, hi) == [true] + hi && Marked(0, Not(hi)) == [true] + Not(hi);
      NegateCons(true, hi);
    } else {
      assert Marked(k, hi) == [false] + Marked(k - 1, hi) && Marked(k, Not(hi)) == [false] + Marked(k - 1, Not(hi));
      NegateCons(false, Marked(k - 1, hi));
      NegateMarked(k - 1, hi);
    }
  }

  lemma {:induction false} NegateZero(n: nat)
    ensures Negate(Zeros(n)) == Zeros(n)
  {
    if n > 0 {
      assert Zeros(n)[1..] == Zeros(n - 1);
      assert Not(Zeros(n))[1..] == Not(Zeros(n - 1));
      NegateZero(n - 1);
    }
  }

  lemma LowerBitMarked(k: nat, hi: Bits)
    requires |Marked(k, hi)| == WIDTH
    ensures LowerBit(Marked(k, hi)) == Marked(k, Zeros(|hi|))
  {
    NegateMarked(k, hi);
  }

  /** The mask of the prefix bits: everything above the marker. */
  lemma MaskMarked(k: nat, hi: Bits)
    requires |Marked(k, hi)| == WIDTH
    ensures Shl1(Negate(LowerBit(Marked(k, hi)))) == Zeros(k + 1) + Ones(|hi|)
  {
    LowerBitMarked(k, hi);
    NegateMarked(k, Zeros(|hi|));
    assert Not(Zeros(|hi|)) == Ones(|hi|);
  }

  lemma MaskedEqual(a: Bits, b: Bits, k: nat)
    requires |a| == |b| && k <= |a|
    ensures And(Xor(a, b), Zeros(k) + Ones(|a| - k)) == Zeros(|a|) <==> a[k..] == b[k..]
  {
    var m := And(Xor(a, b), Zeros(k) + Ones(|a| - k));
    assert forall i :: 0 <= i < |a| ==> (m[i] <==> i >= k && a[i] != b[i]);
    if m == Zeros(|a|) {
      assert forall i :: k <= i < |a| ==> !m[i];
      assert forall i :: 0 <= i < |a| - k ==> a[k..][i] == a[k + i] && b[k..][i] == b[k + i];
    }
    if a[k..] == b[k..] {
      assert forall i :: k <= i < |a| ==> a[i] == a[k..][i - k] && b[i] == b[k..][i - k];
      assert m == Zeros(|a|);
    }
  }

  /** A shard covers exactly the words that agree with it above the marker. */
  lemma ContainsIff(k: nat, hi: Bits, p: Word)
    requires |Marked(k, hi)| == WIDTH
    ensures ContainsPrefix(Marked(k, hi), p) <==> p[k + 1..] == hi
  {
    MaskMarked(k, hi);
    MaskedEqual(Marked(k, hi), p, k + 1);
  }

  lemma ZeroContainsAll(p: Word)
    ensures ContainsPrefix(Zeros(WIDTH), p)
  {
    NegateZero(WIDTH);
    assert LowerBit(Zeros(WIDTH)) == Zeros(WIDTH);
    assert Shl1(Zeros(WIDTH)) == Zeros(WIDTH);
  }

  lemma {:induction false} MarkersCompare(k: nat, j: nat, n: nat)
    requires k < n && j < n
    ensures Geq(Marked(k, Zeros(n - k - 1)), Marked(j, Zeros(n - j - 1))) <==> k >= j
  {
    var a, b, top := Marked(k, Zeros(n - k - 1)), Marked(j, Zeros(n - j - 1)), n - 1;
    if k < top && j < top {
      MarkersCompare(k, j, n - 1);
      assert a[..top] == Marked(k, Zeros(n - k - 2)) && b[..top] == Marked(j, Zeros(n - j - 2));
    } else if k == top && j == top {
      assert a[..top] == b[..top];
      GeqReflexive(a[..top]);
    }
  }

  lemma GeqReflexive(a: Bits)
    ensures Geq(a, a)
  {
  }

  lemma NoTrue(a: Bits)
    requires true !in a
    ensures a == Zeros(|a|)
  {
    forall i | 0 <= i < |a|
      ensures !a[i]
    {
      assert a[i] in a;
    }
  }

  /** An ancestor has its marker no lower and agrees above it. */
  lemma AncestorIff(k: nat, hi: Bits, j: nat, lo: Bits)
    requires |Marked(k, hi)| == WIDTH && |Marked(j, lo)| == WIDTH
    ensures IsAncestor(Marked(k, hi), Marked(j, lo)) <==> k >= j && lo[k - j..] == hi
  {
    LowerBitMarked(k, hi);
    LowerBitMarked(j, lo);
    MarkersCompare(k, j, WIDTH);
    MaskMarked(k, hi);
    MaskedEqual(Marked(k, hi), Marked(j, lo), k + 1);
    if k >= j {
      assert Marked(j, lo)[k + 1..] == lo[k - j..];
    }
  }

  /** Zero is an ancestor of itself alone. */
  lemma ZeroIsAncestorIff(s: Word)
    ensures IsAncestor(Zeros(WIDTH), s) <==> true !in s
  {
    ZeroLowerBit();
    if true !in s {
      NoTrue(s);
      ZeroIsLeast(Zeros(WIDTH));
    } else {
      var k := MarkerAt(s);
      LowerBitMarked(k, s[k + 1..]);
      ZeroIsLeast(LowerBit(s));
      assert LowerBit(s)[k];
    }
  }

  lemma ZeroLowerBit()
    ensures LowerBit(Zeros(WIDTH)) == Zeros(WIDTH)
    ensures Shl1(Negate(LowerBit(Zeros(WIDTH)))) == Zeros(WIDTH)
  {
    NegateZero(WIDTH);
    assert LowerBit(Zeros(WIDTH)) == Zeros(WIDTH) && Shl1(Zeros(WIDTH)) == Zeros(WIDTH);
  }

  /** Zero is below every shard whose prefix is all zeros. */
  lemma AncestorOfZeroIff(k: nat, hi: Bits)
    requires |Marked(k, hi)| == WIDTH
    ensures IsAncestor(Marked(k, hi), Zeros(WIDTH)) <==> true !in hi
  {
    var s := Marked(k, hi);
    ZeroLowerBit();
    ZeroIsLeast(LowerBit(s));
    MaskMarked(k, hi);
    MaskedEqual(s, Zeros(WIDTH), k + 1);
    SuffixIs(k, hi);
    NoTrueIff(hi);
  }

  lemma SuffixIs(k: nat, hi: Bits)
    requires |Marked(k, hi)| == WIDTH
    ensures Marked(k, hi)[k + 1..] == hi && Zeros(WIDTH)[k + 1..] == Zeros(|hi|)
  {
  }

  lemma NoTrueIff(a: Bits)
    ensures true !in a <==> a == Zeros(|a|)
  {
    if true !in a {
      NoTrue(a);
    }
  }

  lemma {:induction false} ZeroIsLeast(a: Bits)
    ensures Geq(a, Zeros(|a|))
    ensures Geq(Zeros(|a|), a) ==> true !in a
  {
    if a != [] {
      var top := |a| - 1;
      assert Zeros(|a|)[..top] == Zeros(top) && a == a[..top] + [a[top]];
      ZeroIsLeast(a[..top]);
    }
  }

  lemma AncestorReflexive(a: Word)
    ensures IsAncestor(a, a)
  {
    if true in a {
      var k := MarkerAt(a);
      AncestorIff(k, a[k + 1..], k, a[k + 1..]);
    } else {
      NoTrue(a);
      ZeroIsAncestorIff(a);
    }
  }

  /** The words of a shard lie in each of its ancestors. */
  lemma AncestorContains(a: Word, b: Word, p: Word)
    requires IsAncestor(a, b) && true in b && ContainsPrefix(b, p)
    ensures ContainsPrefix(a, p)
  {
    if true !in a {
      NoTrue(a);
      ZeroContainsAll(p);
    } else {
      var k, j := MarkerAt(a), MarkerAt(b);
      AncestorIff(k, a[k + 1..], j, b[j + 1..]);
      ContainsIff(k, a[k + 1..], p);
      ContainsIff(j, b[j + 1..], p);
      assert p[k + 1..] == p[j + 1..][k - j..];
    }
  }

  /** For a zero shard the ancestor test does not mean inclusion, unless the ancestor covers every word. */
  lemma AncestorMeansInclusionIff(a: Word, b: Word)
    requires IsAncestor(a, b)
    ensures (forall p: Word :: ContainsPrefix(b, p) ==> ContainsPrefix(a, p)) <==> true in b || true !in a[..WIDTH - 1]
  {
    if true in b {
      forall p: Word | ContainsPrefix(b, p)
        ensures ContainsPrefix(a, p)
      {
        AncestorContains(a, b, p);
      }
    } else {
      NoTrue(b);
      if true in a[..WIDTH - 1] {
        var p := LeftOut(a);
        ZeroContainsAll(p);
      } else {
        forall p: Word
          ensures ContainsPrefix(a, p)
        {
          TopContainsAll(a, p);
        }
      }
    }
  }

  /** The case that fails: the shard of the all-zero prefix of full length passes for an ancestor of the zero shard. */
  lemma ZeroShardBelowALeaf()
    ensures IsAncestor(Marked(0, Zeros(WIDTH - 1)), Zeros(WIDTH))
    ensures exists p: Word :: ContainsPrefix(Zeros(WIDTH), p) && !ContainsPrefix(Marked(0, Zeros(WIDTH - 1)), p)
  {
    var a := Marked(0, Zeros(WIDTH - 1));
    AncestorOfZeroIff(0, Zeros(WIDTH - 1));
    assert a[..WIDTH - 1][0];
    var p := LeftOut(a);
    ZeroContainsAll(p);
  }

  /** A shard below the top leaves some word out. */
  lemma LeftOut(a: Word) returns (p: Word)
    requires true in a[..WIDTH - 1]
    ensures !ContainsPrefix(a, p)
  {
    assert a == a[..WIDTH - 1] + a[WIDTH - 1..];
    var k := MarkerAt(a);
    var hi := a[k + 1..];
    assert k < WIDTH - 1;
    p := Zeros(k + 1) + Not(hi);
    assert p[k + 1..] == Not(hi) && Not(hi)[0] != hi[0];
    ContainsIff(k, hi, p);
  }

  lemma TopContainsAll(a: Word, p: Word)
    requires true !in a[..WIDTH - 1]
    ensures ContainsPrefix(a, p)
  {
    NoTrue(a[..WIDTH - 1]);
    if a[WIDTH - 1] {
      assert a == Marked(WIDTH - 1, []);
      ContainsIff(WIDTH - 1, [], p);
    } else {
      assert a == Zeros(WIDTH);
      ZeroContainsAll(p);
    }
  }

  lemma AncestorTransitive(a: Word, b: Word, c: Word)
    requires IsAncestor(a, b) && IsAncestor(b, c)
    ensures IsAncestor(a, c)
  {
    if true !in b {
      NoTrue(b);
      ZeroIsAncestorIff(c);
      if true !in c {
        NoTrue(c);
      }
    } else if true !in a {
      NoTrue(a);
      ZeroIsAncestorIff(b);
    } else if true !in c {
      NoTrue(c);
      AncestorsOfZero(a, b);
    } else {
      var i, j, k := MarkerAt(a), MarkerAt(b), MarkerAt(c);
      AncestorIff(i, a[i + 1..], j, b[j + 1..]);
      AncestorIff(j, b[j + 1..], k, c[k + 1..]);
      AncestorIff(i, a[i + 1..], k, c[k + 1..]);
      assert c[k + 1..][i - k..] == c[k + 1..][j - k..][i - j..];
    }
  }

  lemma AncestorsOfZero(a: Word, b: Word)
    requires true in a && true in b && IsAncestor(a, b) && IsAncestor(b, Zeros(WIDTH))
    ensures IsAncestor(a, Zeros(WIDTH))
  {
    var i, j := MarkerAt(a), MarkerAt(b);
    AncestorIff(i, a[i + 1..], j, b[j + 1..]);
    AncestorOfZeroIff(i, a[i + 1..]);
    AncestorOfZeroIff(j, b[j + 1..]);
  }

  /** On real shards the ancestor test is inclusion of the covered words. */
  lemma AncestorIsInclusion(a: Word, b: Word)
    requires true in a && true in b
    ensures IsAncestor(a, b) <==> forall p: Word :: ContainsPrefix(b, p) ==> ContainsPrefix(a, p)
  {
    if IsAncestor(a, b) {
      AncestorMeansInclusionIff(a, b);
    } else {
      var p := Outside(a, b);
    }
  }

  /** A real shard that is no ancestor of another leaves out one of its words. */
  lemma Outside(a: Word, b: Word) returns (p: Word)
    requires true in a && true in b && !IsAncestor(a, b)
    ensures ContainsPrefix(b, p) && !ContainsPrefix(a, p)
  {
    var k, j := MarkerAt(a), MarkerAt(b);
    AncestorIff(k, a[k + 1..], j, b[j + 1..]);
    p := if k >= j then b else b[j := !a[j]];
    ContainsIff(k, a[k + 1..], p);
    ContainsIff(j, b[j + 1..], p);
    if k >= j {
      assert b[k + 1..] == b[j + 1..][k - j..];
    } else {
      ChangedBit(a, b, p, k, j);
    }
  }

  lemma ChangedBit(a: Word, b: Word, p: Word, k: nat, j: nat)
    requires k < j < WIDTH && p == b[j := !a[j]]
    ensures p[j + 1..] == b[j + 1..] && p[k + 1..] != a[k + 1..]
  {
    assert p[k + 1..][j - k - 1] != a[k + 1..][j - k - 1];
  }

  lemma NotCons(y: bool, b: Bits)
    ensures Not([y] + b) == [!y] + Not(b)
  {
  }

  lemma SubCons(x: bool, a: Bits, y: bool, b: Bits)
    requires |a| == |b|
    ensures Sub([x] + a, [y] + b) == [x != y] + Add(a, Not(b), x || !y)
  {
    hide Add, Not;
    NotCons(y, b);
    AddCons(x, a, !y, Not(b), true);
    assert ((x && !y) || (x && true) || (!y && true)) == (x || !y);
    assert ((x != !y) != true) == (x != y);
  }

  lemma PlusCons(x: bool, a: Bits, y: bool, b: Bits)
    requires |a| == |b|
    ensures Plus([x] + a, [y] + b) == [x != y] + Add(a, b, x && y)
  {
    AddCons(x, a, y, b, false);
  }

  lemma {:induction false} PlusLowZeros(k: nat, a: Bits, b: Bits)
    requires |a| == |b|
    ensures Plus(Zeros(k) + a, Zeros(k) + b) == Zeros(k) + Plus(a, b)
  {
    hide Add;
    assert Zeros(0) + a == a && Zeros(0) + b == b;
    if k > 0 {
      var z := Zeros(k - 1);
      assert Zeros(k) + a == [false] + (z + a) && Zeros(k) + b == [false] + (z + b);
      PlusCons(false, z + a, false, z + b);
      PlusLowZeros(k - 1, a, b);
      assert [false] + (z + Plus(a, b)) == Zeros(k) + Plus(a, b);
    } else {
      assert Zeros(0) + Plus(a, b) == Plus(a, b);
    }
  }

  lemma {:induction false} SubLowZeros(k: nat, a: Bits, b: Bits)
    requires |a| == |b|
    ensures Sub(Zeros(k) + a, Zeros(k) + b) == Zeros(k) + Sub(a, b)
  {
    hide Add;
    assert Zeros(0) + a == a && Zeros(0) + b == b;
    if k > 0 {
      var z := Zeros(k - 1);
      assert Zeros(k) + a == [false] + (z + a) && Zeros(k) + b == [false] + (z + b);
      SubCons(false, z + a, false, z + b);
      SubLowZeros(k - 1, a, b);
      assert [false] + (z + Sub(a, b)) == Zeros(k) + Sub(a, b);
    } else {
      assert Zeros(0) + Sub(a, b) == Sub(a, b);
    }
  }

  lemma {:induction false} AddOnesCarry(a: Bits)
    ensures Add(a, Ones(|a|), true) == a
  {
    if a != [] {
      assert Ones(|a|)[1..] == Ones(|a| - 1);
      AddOnesCarry(a[1..]);
      assert a == [a[0]] + a[1..];
    }
  }

  lemma SubLowest(hi: Bits)
    ensures Sub([true] + hi, [true] + Zeros(|hi|)) == [false] + hi
  {
    SubCons(true, hi, true, Zeros(|hi|));
    assert Not(Zeros(|hi|)) == Ones(|hi|);
    AddOnesCarry(hi);
  }

  lemma HalfUp(hi: Bits)
    ensures Plus([false, true] + hi, [true] + Zeros(|hi| + 1)) == [true, true] + hi
  {
    assert [false, true] + hi == [false] + ([true] + hi);
    PlusCons(false, [true] + hi, true, Zeros(|hi| + 1));
    AddNothing([true] + hi);
  }

  lemma HalfDown(hi: Bits)
    ensures Sub([false, true] + hi, [true] + Zeros(|hi| + 1)) == [true, false] + hi
  {
    assert [false, true] + hi == [false] + ([true] + hi);
    SubCons(false, [true] + hi, true, Zeros(|hi| + 1));
    assert Not(Zeros(|hi| + 1)) == [true] + Ones(|hi|);
    AddCons(true, hi, true, Ones(|hi|), false);
    AddOnesCarry(hi);
  }

  /** A child moves the marker down by one and records which half it is. */
  lemma ChildIs(k: nat, hi: Bits, left: bool)
    requires |Marked(k, hi)| == WIDTH && k > 0
    ensures GetChild(Marked(k, hi), left) == Marked(k - 1, [!left] + hi)
  {
    LowerBitMarked(k, hi);
    var s, y := Marked(k, hi), Shr1(LowerBit(Marked(k, hi)));
    assert s == Zeros(k - 1) + ([false, true] + hi);
    assert y == Zeros(k - 1) + ([true] + Zeros(|hi| + 1));
    PlusLowZeros(k - 1, [false, true] + hi, [true] + Zeros(|hi| + 1));
    SubLowZeros(k - 1, [false, true] + hi, [true] + Zeros(|hi| + 1));
    HalfUp(hi);
    HalfDown(hi);
    assert Zeros(k - 1) + ([true, false] + hi) == Marked(k - 1, [false] + hi);
    assert Zeros(k - 1) + ([true, true] + hi) == Marked(k - 1, [true] + hi);
  }

  /** A parent drops the lowest prefix bit and moves the marker there; the whole shard has the parent zero. */
  lemma ParentIs(k: nat, hi: Bits)
    requires |Marked(k, hi)| == WIDTH
    ensures GetParent(Marked(k, hi)) == if hi == [] then Zeros(WIDTH) else Marked(k + 1, hi[1..])
  {
    LowerBitMarked(k, hi);
    var s, y := Marked(k, hi), Marked(k, Zeros(|hi|));
    assert s == Zeros(k) + ([true] + hi) && y == Zeros(k) + ([true] + Zeros(|hi|));
    SubLowZeros(k, [true] + hi, [true] + Zeros(|hi|));
    SubLowest(hi);
    assert Zeros(k) + ([false] + hi) == Zeros(k + 1) + hi;
    if hi == [] {
      assert Shl1(y) == Zeros(WIDTH);
    } else {
      assert Shl1(y) == Marked(k + 1, Zeros(|hi| - 1));
      assert Or(Zeros(k + 1) + hi, Marked(k + 1, Zeros(|hi| - 1))) == Marked(k + 1, hi[1..]);
    }
  }

  /** Going to a child and back is the identity, and the two children are siblings. */
  lemma ParentOfChild(s: Word)
    requires true in s && !s[0]
    ensures GetParent(GetChild(s, true)) == s == GetParent(GetChild(s, false))
    ensures IsSibling(GetChild(s, true), GetChild(s, false))
  {
    var k := MarkerAt(s);
    var hi := s[k + 1..];
    UpAgain(k, hi, true);
    UpAgain(k, hi, false);
    ChildIs(k, hi, true);
    ChildIs(k, hi, false);
    ChildrenDiffer(k - 1, hi);
  }

  lemma UpAgain(k: nat, hi: Bits, left: bool)
    requires |Marked(k, hi)| == WIDTH && k > 0
    ensures GetParent(GetChild(Marked(k, hi), left)) == Marked(k, hi)
  {
    ChildIs(k, hi, left);
    ParentIs(k - 1, [!left] + hi);
    assert ([!left] + hi)[1..] == hi;
  }

  /** The children split the words their parent covers between them. */
  lemma ChildrenHalve(s: Word, p: Word)
    requires true in s && !s[0]
    ensures ContainsPrefix(s, p) <==> ContainsPrefix(GetChild(s, true), p) || ContainsPrefix(GetChild(s, false), p)
    ensures !(ContainsPrefix(GetChild(s, true), p) && ContainsPrefix(GetChild(s, false), p))
  {
    var k := MarkerAt(s);
    var hi := s[k + 1..];
    ChildIs(k, hi, true);
    ChildIs(k, hi, false);
    ContainsIff(k, hi, p);
    ContainsIff(k - 1, [false] + hi, p);
    ContainsIff(k - 1, [true] + hi, p);
    SplitAt(p, k, hi);
  }

  lemma SplitAt(p: Bits, k: nat, hi: Bits)
    requires k < |p|
    ensures p[k..] == [false] + hi <==> !p[k] && p[k + 1..] == hi
    ensures p[k..] == [true] + hi <==> p[k] && p[k + 1..] == hi
  {
    assert p[k..] == [p[k]] + p[k + 1..];
    assert ([false] + hi)[1..] == hi && ([true] + hi)[1..] == hi && p[k..][1..] == p[k + 1..];
  }

  lemma MarkerUp(k: nat, hi: Bits)
    requires |Marked(k, hi)| == WIDTH
    ensures hi == [] ==> Shl1(LowerBit(Marked(k, hi))) == Zeros(WIDTH)
    ensures hi != [] ==> Shl1(LowerBit(Marked(k, hi))) == Marked(k + 1, Zeros(|hi| - 1))
  {
    LowerBitMarked(k, hi);
    if hi != [] {
      assert Shl1(Marked(k, Zeros(|hi|))) == Marked(k + 1, Zeros(|hi| - 1));
    } else {
      assert Shl1(Marked(k, Zeros(0))) == Zeros(WIDTH);
    }
  }

  lemma IsSiblingIs(s: Word, other: Word)
    ensures IsSibling(s, other) <==> Xor(s, other) != Zeros(WIDTH) && Xor(s, other) == Shl1(LowerBit(s))
  {
  }

  /** The sibling of a shard is the one that differs in the lowest bit of the prefix, and no other. */
  lemma SiblingIff(k: nat, hi: Bits, other: Word)
    requires |Marked(k, hi)| == WIDTH
    ensures IsSibling(Marked(k, hi), other) <==> hi != [] && other == Marked(k, [!hi[0]] + hi[1..])
  {
    hide Xor, Shl1, LowerBit, IsSibling;
    var s := Marked(k, hi);
    MarkerUp(k, hi);
    IsSiblingIs(s, other);
    if hi != [] {
      var there := Marked(k, [!hi[0]] + hi[1..]);
      FlippedBit(k, hi);
      OneBitApart(s, there, k + 1);
      if IsSibling(s, other) {
        SameXor(s, other, there);
      }
    }
  }

  lemma FlippedBit(k: nat, hi: Bits)
    requires |Marked(k, hi)| == WIDTH && hi != []
    ensures Marked(k, [!hi[0]] + hi[1..]) == Marked(k, hi)[k + 1 := !Marked(k, hi)[k + 1]]
  {
  }

  lemma OneBitApart(a: Word, b: Word, k: nat)
    requires k < WIDTH && b == a[k := !a[k]]
    ensures Xor(a, b) == Marked(k, Zeros(WIDTH - 1 - k)) && Xor(a, b) != Zeros(WIDTH)
  {
    assert Xor(a, b)[k];
  }

  lemma SameXor(a: Word, b: Word, c: Word)
    requires Xor(a, b) == Xor(a, c)
    ensures b == c
  {
    forall i | 0 <= i < WIDTH
      ensures b[i] == c[i]
    {
      assert Xor(a, b)[i] == Xor(a, c)[i];
    }
  }

  /** A shard of full length is its own child. */
  lemma NoChild(hi: Bits, left: bool)
    requires |Marked(0, hi)| == WIDTH
    ensures GetChild(Marked(0, hi), left) == Marked(0, hi)
  {
    LowerBitMarked(0, hi);
    assert Shr1(Marked(0, Zeros(|hi|))) == Zeros(WIDTH);
    AddNothing(Marked(0, hi));
    assert Not(Zeros(WIDTH)) == Ones(WIDTH);
    AddOnesCarry(Marked(0, hi));
  }

  lemma ChildrenDiffer(k: nat, hi: Bits)
    requires |Marked(k, hi)| == WIDTH - 1
    ensures IsSibling(Marked(k, [false] + hi), Marked(k, [true] + hi))
  {
    var l, r := Marked(k, [false] + hi), Marked(k, [true] + hi);
    LowerBitMarked(k, [false] + hi);
    var x := Xor(l, r);
    assert x[k + 1];
    assert x == Marked(k + 1, Zeros(|hi|));
    assert Shl1(Marked(k, Zeros(|hi| + 1))) == Marked(k + 1, Zeros(|hi|));
  }

  /** A shard below another one is reached by taking the parent. */
  lemma ParentsChild(s: Word)
    requires true in s[..WIDTH - 1]
    ensures var p := GetParent(s); true in p && !p[0] && s == GetChild(p, !s[MarkerAt(s) + 1])
  {
    assert s == s[..WIDTH - 1] + s[WIDTH - 1..];
    var k := MarkerAt(s);
    var hi := s[k + 1..];
    assert k < WIDTH - 1;
    ParentIs(k, hi);
    ChildIs(k + 1, hi[1..], !hi[0]);
    assert [hi[0]] + hi[1..] == hi;
    assert GetParent(s)[k + 1] && !GetParent(s)[0];
  }
}
