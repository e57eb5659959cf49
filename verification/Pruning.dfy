/** Dropping the elements of a list that another surviving element dominates, by a marking pass. */
module Pruning {
  ghost predicate PreorderOn<T(!new)>(rs: seq<T>, dom: (T, T) -> bool) {
    && (forall a :: a in rs ==> dom(a, a))
    && (forall a, b, c :: a in rs && b in rs && c in rs && dom(a, b) && dom(b, c) ==> dom(a, c))
  }

  /** `kept` has only elements of `all`, and one dominating each of them. */
  ghost predicate Prunes<T(!new)>(all: seq<T>, kept: seq<T>, dom: (T, T) -> bool) {
    && (forall r :: r in kept ==> r in all)
    && (forall r {:trigger Dominated(kept, r, dom)} :: r in all ==> Dominated(kept, r, dom))
  }

  ghost predicate Dominated<T(!new)>(kept: seq<T>, r: T, dom: (T, T) -> bool) {
    exists k :: k in kept && dom(k, r)
  }

  ghost predicate Antichain<T>(rs: seq<T>, dom: (T, T) -> bool) {
    forall i, j :: 0 <= i < |rs| && 0 <= j < |rs| && i != j ==> !dom(rs[i], rs[j])
  }

  /** A property that dominating elements share with what they dominate holds of a survivor iff it holds of anything. */
  lemma PruningKeeps<T(!new)>(all: seq<T>, kept: seq<T>, dom: (T, T) -> bool, covers: T -> bool)
    requires Prunes(all, kept, dom)
    requires forall k, r :: k in all && r in all && dom(k, r) && covers(r) ==> covers(k)
    ensures (exists r :: r in all && covers(r)) <==> (exists k :: k in kept && covers(k))
  {
    if r :| r in all && covers(r) {
      assert Dominated(kept, r, dom);
      var k :| k in kept && dom(k, r);
      assert covers(k);
    }
  }

  /** The marks so far: each marked element is dominated by an unmarked one, nothing from `n` on is marked, and no unmarked
      one among the first `n` is dominated by another unmarked one. */
  ghost predicate Marks<T>(rs: seq<T>, mark: seq<bool>, n: nat, dom: (T, T) -> bool)
    requires |mark| == |rs|
  {
    && (forall i :: n <= i < |rs| ==> !mark[i])
    && (forall i :: 0 <= i < |rs| && mark[i] ==> exists j :: 0 <= j < |rs| && !mark[j] && dom(rs[j], rs[i]))
    && (forall i, j :: 0 <= i < n && i < |rs| && 0 <= j < |rs| && i != j && !mark[i] && !mark[j] ==> !dom(rs[j], rs[i]))
  }

  lemma MarkStep<T(!new)>(rs: seq<T>, mark: seq<bool>, n: nat, via: nat, dom: (T, T) -> bool)
    requires |mark| == |rs| && n < |rs| && via < |rs| && via != n && PreorderOn(rs, dom)
    requires Marks(rs, mark, n, dom) && !mark[via] && dom(rs[via], rs[n])
    ensures Marks(rs, mark[n := true], n + 1, dom)
  {
    var mark' := mark[n := true];
    forall i | 0 <= i < |rs| && mark'[i]
      ensures exists j :: 0 <= j < |rs| && !mark'[j] && dom(rs[j], rs[i])
    {
      if i != n {
        var j :| 0 <= j < |rs| && !mark[j] && dom(rs[j], rs[i]);
        if j == n {
          assert rs[via] in rs && rs[n] in rs && rs[i] in rs;
          assert dom(rs[via], rs[i]) && !mark'[via];
        } else {
          assert !mark'[j];
        }
      } else {
        assert !mark'[via];
      }
    }
  }

  method MarkDominated<T(!new)>(a: array<T>, dom: (T, T) -> bool) returns (mark: seq<bool>)
    requires PreorderOn(a[..], dom)
    ensures |mark| == a.Length && Marks(a[..], mark, a.Length, dom)
  {
    mark := seq(a.Length, _ => false);
    for i := 0 to a.Length
      invariant |mark| == a.Length && Marks(a[..], mark, i, dom)
    {
      var j := 0;
      while j < a.Length
        invariant 0 <= j <= a.Length
        invariant forall k :: 0 <= k < j && k != i && !mark[k] ==> !dom(a[k], a[i])
      {
        if j != i && !mark[j] && dom(a[j], a[i]) {
          break;
        }
        j := j + 1;
      }
      if j < a.Length {
        MarkStep(a[..], mark, i, j, dom);
        mark := mark[i := true];
      }
    }
  }

  /** The elements not marked, in order. */
  function Unmarked<T>(rs: seq<T>, mark: seq<bool>): seq<T>
    requires |mark| == |rs|
  {
    if rs == [] then []
    else Unmarked(rs[..|rs| - 1], mark[..|rs| - 1]) + if mark[|rs| - 1] then [] else [rs[|rs| - 1]]
  }

  /** Where each survivor comes from: the increasing list of unmarked places. */
  ghost function Places(mark: seq<bool>): (ps: seq<nat>)
    ensures forall i :: 0 <= i < |ps| ==> ps[i] < |mark| && !mark[ps[i]]
    ensures forall i, j :: 0 <= i < j < |ps| ==> ps[i] < ps[j]
    ensures forall k :: 0 <= k < |mark| && !mark[k] ==> k in ps
  {
    if mark == [] then []
    else
      var ps := Places(mark[..|mark| - 1]);
      if mark[|mark| - 1] then ps else ps + [|mark| - 1]
  }

  lemma {:induction false} UnmarkedAt<T>(rs: seq<T>, mark: seq<bool>)
    requires |mark| == |rs|
    ensures |Unmarked(rs, mark)| == |Places(mark)|
    ensures forall i :: 0 <= i < |Places(mark)| ==> Unmarked(rs, mark)[i] == rs[Places(mark)[i]]
  {
    if rs != [] {
      var n := |rs| - 1;
      UnmarkedAt(rs[..n], mark[..n]);
      assert forall i :: 0 <= i < |Places(mark[..n])| ==> rs[..n][Places(mark[..n])[i]] == rs[Places(mark[..n])[i]];
    }
  }

  /** After the marking pass the survivors dominate everything and none dominates another. */
  lemma SurvivorsPrune<T(!new)>(rs: seq<T>, mark: seq<bool>, dom: (T, T) -> bool)
    requires |mark| == |rs| && Marks(rs, mark, |rs|, dom) && PreorderOn(rs, dom)
    ensures Prunes(rs, Unmarked(rs, mark), dom) && Antichain(Unmarked(rs, mark), dom)
  {
    var kept, ps := Unmarked(rs, mark), Places(mark);
    UnmarkedAt(rs, mark);
    forall r | r in rs
      ensures Dominated(kept, r, dom)
    {
      var i :| 0 <= i < |rs| && rs[i] == r;
      var j := i;
      if mark[i] {
        j :| 0 <= j < |rs| && !mark[j] && dom(rs[j], rs[i]);
      }
      assert j in ps;
      var p :| 0 <= p < |ps| && ps[p] == j;
      assert kept[p] == rs[j] && kept[p] in kept && dom(kept[p], r);
    }
    forall r | r in kept
      ensures r in rs
    {
      var p :| 0 <= p < |kept| && kept[p] == r;
      assert rs[ps[p]] == r;
    }
  }

  lemma SurvivorsInOrder<T>(rs: seq<T>, mark: seq<bool>, leq: (T, T) -> bool)
    requires |mark| == |rs| && forall i, j :: 0 <= i < j < |rs| ==> leq(rs[i], rs[j])
    ensures forall i, j :: 0 <= i < j < |Unmarked(rs, mark)| ==> leq(Unmarked(rs, mark)[i], Unmarked(rs, mark)[j])
  {
    UnmarkedAt(rs, mark);
  }

  /** Moves the unmarked elements to the front of the array, keeping their order. */
  method KeepUnmarked<T>(a: array<T>, mark: seq<bool>) returns (n: nat)
    requires |mark| == a.Length
    modifies a
    ensures n <= a.Length && a[..n] == Unmarked(old(a[..]), mark)
  {
    ghost var rs := a[..];
    n := 0;
    for i := 0 to a.Length
      invariant n <= i && a[..n] == Unmarked(rs[..i], mark[..i])
      invariant forall k :: i <= k < a.Length ==> a[k] == rs[k]
    {
      assert rs[..i + 1][..i] == rs[..i] && mark[..i + 1][..i] == mark[..i];
      if !mark[i] {
        a[n] := a[i];
        n := n + 1;
      }
    }
    assert rs[..a.Length] == rs && mark[..a.Length] == mark;
  }
}
