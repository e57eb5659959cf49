/** Addition, subtraction and comparison of decoded currency collections (tlb/currency_math.go). */
module CurrencyMath {
  import opened Options
  import opened VarUints
  import opened Currency

  /** Grams as a number, extra currencies as their dictionary. */
  datatype Money = Money(grams: nat, extra: Dict)

  datatype Outcome<T> = Ok(value: T) | Underflow | Malformed

  ghost function Add(c: Money, d: Money): Option<Money> {
    var extra :- AddDicts(c.extra, d.extra);
    Some(Money(c.grams + d.grams, extra))
  }

  /** How amounts are read and written. */
  datatype Codec = Codec(load: seq<bool> -> Option<nat>, store: nat -> seq<bool>) {
    /** Both amounts can be read, and the first covers the second. */
    predicate Covers(x: seq<bool>, y: seq<bool>) {
      load(x).Some? && load(y).Some? && load(x).value >= load(y).value
    }

    predicate Cancel(x: seq<bool>, y: seq<bool>) {
      load(x) == load(y)
    }

    function Difference(x: seq<bool>, y: seq<bool>): seq<bool>
      requires Covers(x, y)
    {
      store(load(x).value - load(y).value)
    }

    /** Every id of `b` is in `a` with at least as much. */
    ghost predicate CoversAll(a: Dict, b: Dict) {
      forall k :: k in b ==> k in a && Covers(a[k], b[k])
    }

    /** `a` less `b`: untouched ids keep their bits, and what comes to zero is dropped. */
    ghost function Minus(a: Dict, b: Dict): Dict
      requires CoversAll(a, b)
    {
      map k | k in a && !(k in b && Cancel(a[k], b[k])) :: if k in b then Difference(a[k], b[k]) else a[k]
    }

    ghost predicate Reads(extra: map<nat, nat>) {
      forall k :: k in extra ==> load(store(extra[k])) == Some(extra[k])
    }
  }

  const AMOUNTS: Codec := Codec(LoadAmount, Amount)

  /** Subtraction as it runs: the ids of `a` one after another, striking out those of `b` that they meet. */
  method SubDicts(q: Codec, a: Dict, b: Dict) returns (r: Outcome<Dict>)
    ensures r.Ok? <==> q.CoversAll(a, b)
    ensures r.Ok? ==> r.value == q.Minus(a, b)
  {
    if b == map[] {
      assert q.Minus(a, b) == a;
      return Ok(a);
    }
    if a == map[] {
      var k :| k in b;
      return Underflow;
    }
    var left, rightByKey: Dict, result: Dict := a.Keys, b, map[];
    while left != {}
      invariant left <= a.Keys
      invariant rightByKey == map k | k in b && (k in left || k !in a) :: b[k]
      invariant forall k :: k in b && k in a && k !in left ==> q.Covers(a[k], b[k])
      invariant forall k :: k in result <==> k in a && k !in left && !(k in b && q.Cancel(a[k], b[k]))
      invariant forall k :: k in result ==> result[k] == if k in b then q.Difference(a[k], b[k]) else a[k]
      decreases left
    {
      var k :| k in left;
      left := left - {k};
      if k !in rightByKey {
        result := result[k := a[k]];
      } else {
        var other := rightByKey[k];
        rightByKey := rightByKey - {k};
        var x, y := q.load(a[k]), q.load(other);
        if x.None? || y.None? {
          return Malformed;
        }
        if x.value < y.value {
          return Underflow;
        }
        if x.value > y.value {
          result := result[k := q.store(x.value - y.value)];
        }
      }
    }
    if rightByKey != map[] {
      var k :| k in rightByKey;
      return Underflow;
    }
    forall k | k in b
      ensures k in a && q.Covers(a[k], b[k])
    {
      assert k !in rightByKey;
    }
    assert result == q.Minus(a, b);
    return Ok(result);
  }

  ghost predicate CoversMoney(c: Money, d: Money) {
    c.grams >= d.grams && AMOUNTS.CoversAll(c.extra, d.extra)
  }

  method Sub(c: Money, d: Money) returns (r: Outcome<Money>)
    ensures r.Ok? <==> CoversMoney(c, d)
    ensures r.Ok? ==> r.value == Money(c.grams - d.grams, AMOUNTS.Minus(c.extra, d.extra))
  {
    if c.grams < d.grams {
      return Underflow;
    }
    var extra := SubDicts(AMOUNTS, c.extra, d.extra);
    match extra
    case Ok(e) => return Ok(Money(c.grams - d.grams, e));
    case Underflow => return Underflow;
    case Malformed => return Malformed;
  }

  method GreaterOrEqual(c: Money, d: Money) returns (r: Outcome<bool>)
    ensures r == Ok(true) <==> CoversMoney(c, d)
  {
    if c.grams < d.grams {
      return Ok(false);
    }
    var extra := SubDicts(AMOUNTS, c.extra, d.extra);
    return if extra.Malformed? then Malformed else Ok(extra.Ok?);
  }

  /** A collection with canonical amounts. */
  function Of(c: Collection): Money {
    Money(c.grams, Amounts(c.extra))
  }

  lemma AmountsRead(extra: map<nat, nat>)
    requires FitsExtra(extra) && Positive(extra)
    ensures AMOUNTS.Reads(extra)
  {
    forall k | k in extra
      ensures LoadAmount(Amount(extra[k])) == Some(extra[k])
    {
      AmountReads(extra[k]);
    }
  }

  lemma CoversAllIff(q: Codec, c: map<nat, nat>, d: map<nat, nat>)
    requires q.Reads(c) && q.Reads(d) && Positive(d)
    ensures q.CoversAll(Each(c, q.store), Each(d, q.store)) <==> forall k :: k in d ==> At(c, k) >= d[k]
  {
    var (a, b) := (Each(c, q.store), Each(d, q.store));
    forall k | k in d
      ensures (k in a && q.Covers(a[k], b[k])) <==> At(c, k) >= d[k]
    {
      if k in c {
        assert a[k] == q.store(c[k]) && b[k] == q.store(d[k]);
      }
    }
    assert b.Keys == d.Keys;
  }

  /** Comparison is the comparison of every amount. */
  lemma CoversIff(c: Collection, d: Collection)
    requires FitsExtra(c.extra) && FitsExtra(d.extra) && Positive(c.extra) && Positive(d.extra)
    ensures CoversMoney(Of(c), Of(d)) <==> c.grams >= d.grams && forall k :: k in d.extra ==> At(c.extra, k) >= d.extra[k]
  {
    AmountsRead(c.extra);
    AmountsRead(d.extra);
    CoversAllIff(AMOUNTS, c.extra, d.extra);
  }

  lemma MinusUndoes(q: Codec, c: map<nat, nat>, d: map<nat, nat>)
    requires q.Reads(d) && q.Reads(SumExtra(c, d)) && Positive(c) && Positive(d)
    ensures q.CoversAll(Each(SumExtra(c, d), q.store), Each(d, q.store))
    ensures q.Minus(Each(SumExtra(c, d), q.store), Each(d, q.store)) == Each(c, q.store)
  {
    var s := SumExtra(c, d);
    var (a, b) := (Each(s, q.store), Each(d, q.store));
    forall k | k in d
      ensures k in a && q.Covers(a[k], b[k])
      ensures q.Cancel(a[k], b[k]) <==> k !in c
      ensures k in c ==> q.Difference(a[k], b[k]) == q.store(c[k])
    {
      assert a[k] == q.store(s[k]) && b[k] == q.store(d[k]);
    }
    assert b.Keys == d.Keys;
    assert q.CoversAll(a, b);
    forall k | k in c
      ensures k in q.Minus(a, b) && q.Minus(a, b)[k] == q.store(c[k])
    {
      assert k in s;
    }
    assert q.Minus(a, b).Keys == c.Keys;
  }

  /** What was added can be taken off again, bit for bit. */
  lemma AddThenSub(c: Collection, d: Collection)
    requires FitsExtra(c.extra) && FitsExtra(d.extra) && Positive(c.extra) && Positive(d.extra) && FitsExtra(SumExtra(c.extra, d.extra))
    ensures var sum := Of(Sum(c, d));
            && Add(Of(c), Of(d)) == Some(sum) && CoversMoney(sum, Of(d))
            && Money(sum.grams - d.grams, AMOUNTS.Minus(sum.extra, Of(d).extra)) == Of(c)
  {
    DictsAdd(c.extra, d.extra);
    PositiveSum(c, d);
    AmountsRead(d.extra);
    AmountsRead(SumExtra(c.extra, d.extra));
    MinusUndoes(AMOUNTS, c.extra, d.extra);
  }
}
