/** Sorting by a key, as `sort.Slice` promises it: ordered, and the same elements. */
module Sorting {
  ghost predicate Ordered<T>(s: seq<T>, leq: (T, T) -> bool) {
    forall i, j :: 0 <= i < j < |s| ==> leq(s[i], s[j])
  }

  ghost predicate TotalPreorder<T(!new)>(leq: (T, T) -> bool) {
    && (forall a, b :: leq(a, b) || leq(b, a))
    && (forall a, b, c :: leq(a, b) && leq(b, c) ==> leq(a, c))
  }

  ghost predicate SameElements<T>(a: seq<T>, b: seq<T>) {
    multiset(a) == multiset(b)
  }

  lemma SameMembers<T>(a: seq<T>, b: seq<T>)
    requires SameElements(a, b)
    ensures |a| == |b| && forall x :: x in a <==> x in b
  {
    assert |multiset(a)| == |multiset(b)|;
    assert forall x :: x in a <==> x in multiset(a);
    assert forall x :: x in b <==> x in multiset(b);
  }

  function Insert<T>(x: T, s: seq<T>, leq: (T, T) -> bool): (r: seq<T>)
    ensures multiset(r) == multiset(s) + multiset{x}
  {
    if s == [] then [x]
    else if leq(x, s[0]) then
      [x] + s
    else
      assert s == [s[0]] + s[1..];
      [s[0]] + Insert(x, s[1..], leq)
  }

  lemma {:induction false} InsertKeepsOrder<T(!new)>(x: T, s: seq<T>, leq: (T, T) -> bool)
    requires TotalPreorder(leq) && Ordered(s, leq)
    ensures Ordered(Insert(x, s, leq), leq)
  {
    if s != [] && !leq(x, s[0]) {
      InsertKeepsOrder(x, s[1..], leq);
      var t := Insert(x, s[1..], leq);
      forall y | y in t
        ensures leq(s[0], y)
      {
        assert y in multiset(t);
        assert y in s[1..] || y == x;
      }
    }
  }

  method Sort<T(!new)>(s: seq<T>, leq: (T, T) -> bool) returns (r: seq<T>)
    requires TotalPreorder(leq)
    ensures SameElements(r, s) && Ordered(r, leq)
  {
    r := [];
    for i := |s| downto 0
      invariant SameElements(r, s[i..]) && Ordered(r, leq)
    {
      InsertKeepsOrder(s[i], r, leq);
      r := Insert(s[i], r, leq);
      assert s[i..] == [s[i]] + s[i + 1..];
    }
    assert s[0..] == s;
  }
}
