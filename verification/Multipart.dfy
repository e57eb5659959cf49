/** Reassembly of a message from parts that arrive in any order, and the splitting that makes them (adnl/message.go). */
module Multipart {
  import opened TlBytes

  datatype Range = Range(start: int, end: int)

  const MAX_RANGES: nat := 32

  /** Non-empty ranges inside `[0, size)`, in order, with a gap between neighbours. */
  ghost predicate Spaced(rs: seq<Range>, size: nat) {
    && (forall i :: 0 <= i < |rs| ==> 0 <= rs[i].start < rs[i].end <= size)
    && (forall i, j :: 0 <= i < j < |rs| ==> rs[i].end < rs[j].start)
  }

  ghost predicate Covered(rs: seq<Range>, x: int) {
    exists i :: 0 <= i < |rs| && rs[i].start <= x < rs[i].end
  }

  function TotalLen(rs: seq<Range>): int {
    if rs == [] then 0 else rs[0].end - rs[0].start + TotalLen(rs[1..])
  }

  /** The ranges that end before the part starts. */
  function Before(rs: seq<Range>, start: int): (i: nat)
    ensures i <= |rs|
    ensures forall k :: 0 <= k < i ==> rs[k].end < start
    ensures i < |rs| ==> rs[i].end >= start
  {
    if rs == [] || rs[0].end >= start then 0 else 1 + Before(rs[1..], start)
  }

  datatype Merge = Merge(next: nat, start: int, end: int, covered: int)

  /** The part grown over every range it touches, from range `j` on. */
  function Absorb(rs: seq<Range>, j: nat, start: int, end: int, covered: int): (m: Merge)
    requires j <= |rs|
    ensures j <= m.next <= |rs|
    decreases |rs| - j
  {
    if j < |rs| && rs[j].start <= end then
      Absorb(rs, j + 1, if rs[j].start < start then rs[j].start else start, if rs[j].end > end then rs[j].end else end,
             covered + (rs[j].end - rs[j].start))
    else Merge(j, start, end, covered)
  }

  function Merged(rs: seq<Range>, start: int, end: int): seq<Range> {
    var i := Before(rs, start);
    var m := Absorb(rs, i, start, end, 0);
    rs[..i] + [Range(m.start, m.end)] + rs[m.next..]
  }

  function Added(rs: seq<Range>, start: int, end: int): int {
    var m := Absorb(rs, Before(rs, start), start, end, 0);
    m.end - m.start - m.covered
  }

  /** What merging reaches: the absorbed ranges are exactly those that touch the part, and they add up. */
  lemma {:induction false} AbsorbIs(rs: seq<Range>, j: nat, start: int, end: int, covered: int, size: nat)
    requires Spaced(rs, size) && j <= |rs| && 0 <= start < end <= size
    requires forall k :: 0 <= k < j ==> rs[k].end < start
    requires j < |rs| ==> rs[j].end >= start
    ensures var m := Absorb(rs, j, start, end, covered);
            && 0 <= m.start <= start && end <= m.end <= size
            && (forall k :: 0 <= k < j ==> rs[k].end < m.start)
            && (forall k :: m.next <= k < |rs| ==> m.end < rs[k].start)
            && (forall x :: m.start <= x < m.end <==> start <= x < end || Covered(rs[j..m.next], x))
            && m.covered == covered + TotalLen(rs[j..m.next])
    decreases |rs| - j
  {
    var m := Absorb(rs, j, start, end, covered);
    if j < |rs| && rs[j].start <= end {
      var start' := if rs[j].start < start then rs[j].start else start;
      var end' := if rs[j].end > end then rs[j].end else end;
      AbsorbRest(rs, j + 1, start', end', covered + (rs[j].end - rs[j].start), size);
      CoverSplit(rs, j, m.next);
    }
  }

  lemma {:induction false} AbsorbRest(rs: seq<Range>, j: nat, start: int, end: int, covered: int, size: nat)
    requires Spaced(rs, size) && 0 < j <= |rs| && 0 <= start < end <= size
    requires rs[j - 1].end <= end && start <= rs[j - 1].start
    ensures var m := Absorb(rs, j, start, end, covered);
            && m.start == start && end <= m.end <= size
            && (forall k :: m.next <= k < |rs| ==> m.end < rs[k].start)
            && (forall x :: m.start <= x < m.end <==> start <= x < end || Covered(rs[j..m.next], x))
            && m.covered == covered + TotalLen(rs[j..m.next])
    decreases |rs| - j
  {
    var m := Absorb(rs, j, start, end, covered);
    if j < |rs| && rs[j].start <= end {
      var end' := if rs[j].end > end then rs[j].end else end;
      AbsorbRest(rs, j + 1, start, end', covered + (rs[j].end - rs[j].start), size);
      CoverSplit(rs, j, m.next);
    }
  }

  lemma CoverSplit(rs: seq<Range>, j: nat, n: nat)
    requires j < n <= |rs|
    ensures forall x :: Covered(rs[j..n], x) <==> rs[j].start <= x < rs[j].end || Covered(rs[j + 1..n], x)
    ensures TotalLen(rs[j..n]) == rs[j].end - rs[j].start + TotalLen(rs[j + 1..n])
  {
    var a, b := rs[j..n], rs[j + 1..n];
    assert a[1..] == b;
    forall x
      ensures Covered(a, x) <==> rs[j].start <= x < rs[j].end || Covered(b, x)
    {
      if Covered(a, x) {
        var i :| 0 <= i < |a| && a[i].start <= x < a[i].end;
        if i > 0 {
          assert b[i - 1] == a[i];
        }
      }
      if Covered(b, x) {
        var i :| 0 <= i < |b| && b[i].start <= x < b[i].end;
        assert a[i + 1] == b[i];
      }
      if rs[j].start <= x < rs[j].end {
        assert a[0] == rs[j];
      }
    }
  }

  lemma {:induction false} TotalAdds(a: seq<Range>, b: seq<Range>)
    ensures TotalLen(a + b) == TotalLen(a) + TotalLen(b)
  {
    if a == [] {
      assert a + b == b;
    } else {
      assert (a + b)[1..] == a[1..] + b;
      TotalAdds(a[1..], b);
    }
  }

  lemma CoveredAdds(a: seq<Range>, b: seq<Range>, x: int)
    ensures Covered(a + b, x) <==> Covered(a, x) || Covered(b, x)
  {
    var c := a + b;
    if Covered(a, x) {
      var i :| 0 <= i < |a| && a[i].start <= x < a[i].end;
      assert c[i] == a[i];
    }
    if Covered(b, x) {
      var i :| 0 <= i < |b| && b[i].start <= x < b[i].end;
      assert c[|a| + i] == b[i];
    }
    if Covered(c, x) {
      var i :| 0 <= i < |c| && c[i].start <= x < c[i].end;
      assert if i < |a| then a[i] == c[i] else b[i - |a|] == c[i];
    }
  }

  /** Merging adds exactly the bytes of the part. */
  lemma MergeCovers(rs: seq<Range>, start: int, end: int, size: nat, x: int)
    requires Spaced(rs, size) && 0 <= start < end <= size
    ensures Covered(Merged(rs, start, end), x) <==> Covered(rs, x) || start <= x < end
  {
    var i := Before(rs, start);
    var m := Absorb(rs, i, start, end, 0);
    AbsorbIs(rs, i, start, end, 0, size);
    ReplaceCovers(rs, i, m.next, Range(m.start, m.end), x);
  }

  /** Replacing the stretch `rs[i..j]` by one range. */
  lemma ReplaceCovers(rs: seq<Range>, i: nat, j: nat, one: Range, x: int)
    requires i <= j <= |rs|
    ensures Covered(rs[..i] + [one] + rs[j..], x) <==> Covered(rs[..i], x) || one.start <= x < one.end || Covered(rs[j..], x)
    ensures Covered(rs, x) <==> Covered(rs[..i], x) || Covered(rs[i..j], x) || Covered(rs[j..], x)
  {
    CoveredAdds(rs[..i] + [one], rs[j..], x);
    CoveredAdds(rs[..i], [one], x);
    assert [one][0] == one;
    assert rs == rs[..i] + rs[i..j] + rs[j..];
    CoveredAdds(rs[..i] + rs[i..j], rs[j..], x);
    CoveredAdds(rs[..i], rs[i..j], x);
  }

  lemma MergeTotal(rs: seq<Range>, start: int, end: int, size: nat)
    requires Spaced(rs, size) && 0 <= start < end <= size
    ensures TotalLen(Merged(rs, start, end)) == TotalLen(rs) + Added(rs, start, end)
  {
    var i := Before(rs, start);
    var m := Absorb(rs, i, start, end, 0);
    AbsorbIs(rs, i, start, end, 0, size);
    ReplaceTotal(rs, i, m.next, Range(m.start, m.end));
  }

  lemma ReplaceTotal(rs: seq<Range>, i: nat, j: nat, one: Range)
    requires i <= j <= |rs|
    ensures TotalLen(rs[..i] + [one] + rs[j..]) == TotalLen(rs) - TotalLen(rs[i..j]) + (one.end - one.start)
  {
    TotalAdds(rs[..i] + [one], rs[j..]);
    TotalAdds(rs[..i], [one]);
    assert rs == rs[..i] + rs[i..j] + rs[j..];
    TotalAdds(rs[..i] + rs[i..j], rs[j..]);
    TotalAdds(rs[..i], rs[i..j]);
    assert [one][1..] == [] && TotalLen([one]) == one.end - one.start;
  }

  /** Merging keeps the ranges in order and apart. */
  lemma MergeStaysSpaced(rs: seq<Range>, start: int, end: int, size: nat)
    requires Spaced(rs, size) && 0 <= start < end <= size
    ensures Spaced(Merged(rs, start, end), size)
  {
    var i := Before(rs, start);
    AbsorbIs(rs, i, start, end, 0, size);
    MergeSpaced(rs, i, Absorb(rs, i, start, end, 0), size);
  }

  lemma MergeSpaced(rs: seq<Range>, i: nat, m: Merge, size: nat)
    requires Spaced(rs, size) && i <= m.next <= |rs| && 0 <= m.start < m.end <= size
    requires forall k :: 0 <= k < i ==> rs[k].end < m.start
    requires forall k :: m.next <= k < |rs| ==> m.end < rs[k].start
    ensures Spaced(rs[..i] + [Range(m.start, m.end)] + rs[m.next..], size)
  {
  }

  ghost function Interval(a: int, b: int): (s: set<int>)
    ensures forall x :: x in s <==> a <= x < b
    ensures |s| == if a < b then b - a else 0
    decreases b - a
  {
    if a >= b then {} else Interval(a, b - 1) + {b - 1}
  }

  /** The covered positions, range by range. */
  ghost function CoveredSet(rs: seq<Range>): set<int> {
    if rs == [] then {} else Interval(rs[0].start, rs[0].end) + CoveredSet(rs[1..])
  }

  lemma {:induction false} InCoveredSet(rs: seq<Range>, x: int)
    ensures x in CoveredSet(rs) <==> Covered(rs, x)
  {
    if rs != [] {
      InCoveredSet(rs[1..], x);
      assert rs == [rs[0]] + rs[1..];
      CoveredAdds([rs[0]], rs[1..], x);
      assert Covered([rs[0]], x) <==> [rs[0]][0].start <= x < [rs[0]][0].end;
    }
  }

  /** The counter is the number of covered bytes. */
  lemma {:induction false} TotalIsCovered(rs: seq<Range>, size: nat)
    requires Spaced(rs, size)
    ensures TotalLen(rs) == |CoveredSet(rs)| && CoveredSet(rs) <= Interval(0, size)
  {
    if rs != [] {
      var rest := rs[1..];
      TotalIsCovered(rest, size);
      FirstApart(rs, size);
      assert |CoveredSet(rs)| == |Interval(rs[0].start, rs[0].end)| + |CoveredSet(rest)|;
    }
  }

  lemma FirstApart(rs: seq<Range>, size: nat)
    requires Spaced(rs, size) && rs != []
    ensures Interval(rs[0].start, rs[0].end) !! CoveredSet(rs[1..])
  {
    var rest := rs[1..];
    forall x | x in CoveredSet(rest)
      ensures x !in Interval(rs[0].start, rs[0].end)
    {
      InCoveredSet(rest, x);
      var i :| 0 <= i < |rest| && rest[i].start <= x < rest[i].end;
      assert rest[i] == rs[i + 1];
    }
  }

  lemma SubsetSize(a: set<int>, b: set<int>)
    requires a <= b
    ensures |a| <= |b| && (|a| == |b| ==> a == b)
  {
    assert b == a + (b - a);
    if |a| == |b| {
      assert |b - a| == 0;
    }
  }

  lemma FullCoversAll(rs: seq<Range>, size: nat, x: int)
    requires Spaced(rs, size) && TotalLen(rs) == size && 0 <= x < size
    ensures Covered(rs, x)
  {
    TotalIsCovered(rs, size);
    SubsetSize(CoveredSet(rs), Interval(0, size));
    InCoveredSet(rs, x);
  }

  lemma AllCoveredFills(rs: seq<Range>, size: nat)
    requires Spaced(rs, size) && forall x :: 0 <= x < size ==> Covered(rs, x)
    ensures TotalLen(rs) == size
  {
    TotalIsCovered(rs, size);
    EveryByteIn(rs, size, CoveredSet(rs), Interval(0, size));
  }

  lemma EveryByteIn(rs: seq<Range>, size: nat, covered: set<int>, all: set<int>)
    requires covered == CoveredSet(rs) && all == Interval(0, size) && forall x :: 0 <= x < size ==> Covered(rs, x)
    ensures all <= covered
    ensures covered <= all ==> |covered| == size
  {
    forall x | x in all
      ensures x in covered
    {
      InCoveredSet(rs, x);
    }
    if covered <= all {
      assert covered == all;
    }
  }

  /** The counter reaches the size exactly when every byte is covered. */
  lemma FullIffAll(rs: seq<Range>, size: nat)
    requires Spaced(rs, size)
    ensures TotalLen(rs) == size <==> forall x :: 0 <= x < size ==> Covered(rs, x)
  {
    if TotalLen(rs) == size {
      forall x | 0 <= x < size
        ensures Covered(rs, x)
      {
        FullCoversAll(rs, size, x);
      }
    } else if forall x :: 0 <= x < size ==> Covered(rs, x) {
      AllCoveredFills(rs, size);
    }
  }

  /** The buffer and the ranges filled so far. */
  datatype State = State(buf: seq<Byte>, ranges: seq<Range>)

  datatype Outcome = Ready | Pending | TooBig | TooMany

  function Full(s: State): bool {
    TotalLen(s.ranges) == |s.buf|
  }

  ghost predicate Wf(s: State) {
    Spaced(s.ranges, |s.buf|) && |s.ranges| <= MAX_RANGES
  }

  /** One part: skipped when the message is full, when it is empty or adds nothing; refused when it does not fit or leaves more
      ranges than there is room for. */
  function Add(s: State, offset: int, data: seq<Byte>): (State, Outcome) {
    if Full(s) || |data| == 0 || offset < 0 then (s, Pending)
    else if offset + |data| > |s.buf| then (s, TooBig)
    else if Added(s.ranges, offset, offset + |data|) == 0 then (s, Pending)
    else
      var rs := Merged(s.ranges, offset, offset + |data|);
      if |rs| > MAX_RANGES then (s, TooMany)
      else
        var s' := State(Over(s.buf, offset, data), rs);
        (s', if Full(s') then Ready else Pending)
  }

  ghost predicate Fits(s: State, offset: int, data: seq<Byte>) {
    data != [] && 0 <= offset && offset + |data| <= |s.buf|
  }

  /** A part reports ready exactly when it completes the message, and a full message stays as it is. */
  lemma AddKeepsWf(s: State, offset: int, data: seq<Byte>)
    requires Wf(s)
    ensures var (s', o) := Add(s, offset, data);
            && Wf(s') && |s'.buf| == |s.buf|
            && (o == Ready <==> !Full(s) && Full(s'))
            && (Full(s) ==> s' == s)
            && (o == TooBig <==> !Full(s) && data != [] && 0 <= offset && offset + |data| > |s.buf|)
            && (o == TooMany ==> s' == s)
  {
    if Fits(s, offset, data) {
      MergeStaysSpaced(s.ranges, offset, offset + |data|, |s.buf|);
      FittingKeepsWf(s, offset, data, Merged(s.ranges, offset, offset + |data|));
    }
  }

  lemma FittingKeepsWf(s: State, offset: nat, data: seq<Byte>, merged: seq<Range>)
    requires Wf(s) && data != [] && offset + |data| <= |s.buf| && merged == Merged(s.ranges, offset, offset + |data|)
    requires Spaced(merged, |s.buf|)
    ensures var (s', o) := Add(s, offset, data);
            && Wf(s') && |s'.buf| == |s.buf| && o != TooBig
            && (o == Ready <==> !Full(s) && Full(s')) && (Full(s) ==> s' == s) && (o == TooMany ==> s' == s)
  {
  }

  /** An accepted part covers its bytes and no others. */
  lemma AddCovers(s: State, offset: int, data: seq<Byte>, x: int)
    requires Wf(s) && !Full(s) && Fits(s, offset, data) && Add(s, offset, data).1 != TooMany
    ensures Covered(Add(s, offset, data).0.ranges, x) <==> Covered(s.ranges, x) || offset <= x < offset + |data|
  {
    MergeCovers(s.ranges, offset, offset + |data|, |s.buf|, x);
    NothingAdded(s, offset, offset + |data|, x);
  }

  /** An accepted part writes its bytes and leaves the rest; one that adds nothing writes nothing. */
  lemma AddWrites(s: State, offset: int, data: seq<Byte>, x: int)
    requires Wf(s) && 0 <= x < |s.buf|
    ensures var s' := Add(s, offset, data).0;
            && |s'.buf| == |s.buf|
            && s'.buf[x] == if s' != s && offset <= x < offset + |data| then data[x - offset] else s.buf[x]
  {
  }

  /** When a part is passed over and when it is refused; either way nothing changes. */
  lemma AddOutcome(s: State, offset: int, data: seq<Byte>)
    requires Wf(s)
    ensures var (s', outcome) := Add(s, offset, data);
            && (Full(s) || data == [] || offset < 0 ==> s' == s && outcome == Pending)
            && (!Full(s) && data != [] && offset >= 0 ==> (outcome == TooBig <==> offset + |data| > |s.buf|))
            && (outcome == TooBig || outcome == TooMany ==> s' == s)
            && (outcome == TooMany ==> |Merged(s.ranges, offset, offset + |data|)| == 33)
            && (outcome == Ready ==> Full(s') && !Full(s))
  {
    if Fits(s, offset, data) {
      var i := Before(s.ranges, offset);
      var m := Absorb(s.ranges, i, offset, offset + |data|, 0);
      assert |Merged(s.ranges, offset, offset + |data|)| == i + 1 + (|s.ranges| - m.next);
    }
  }

  lemma NothingAdded(s: State, start: int, end: int, x: int)
    requires Wf(s) && 0 <= start < end <= |s.buf|
    ensures Added(s.ranges, start, end) == 0 && start <= x < end ==> Covered(s.ranges, x)
  {
    var n := |s.buf|;
    var merged := Merged(s.ranges, start, end);
    MergeStaysSpaced(s.ranges, start, end, n);
    MergeTotal(s.ranges, start, end, n);
    TotalIsCovered(s.ranges, n);
    TotalIsCovered(merged, n);
    CoverGrows(s.ranges, start, end, n);
    SubsetSize(CoveredSet(s.ranges), CoveredSet(merged));
    MergeCovers(s.ranges, start, end, n, x);
    InCoveredSet(merged, x);
    InCoveredSet(s.ranges, x);
  }

  lemma CoverGrows(rs: seq<Range>, start: int, end: int, size: nat)
    requires Spaced(rs, size) && 0 <= start < end <= size
    ensures CoveredSet(rs) <= CoveredSet(Merged(rs, start, end))
  {
    forall x | x in CoveredSet(rs)
      ensures x in CoveredSet(Merged(rs, start, end))
    {
      MergeCovers(rs, start, end, size, x);
      InCoveredSet(rs, x);
      InCoveredSet(Merged(rs, start, end), x);
    }
  }
}
