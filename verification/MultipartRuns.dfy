/** The reassembly buffer as it is kept, the splitting loop, and what both guarantee together: the parts of a split message
    rebuild it in whatever order and however often they arrive (adnl/message.go). */
module MultipartRuns {
  import opened Options
  import opened TlBytes
  import opened Multipart

  datatype Part = Part(totalSize: nat, offset: nat, data: seq<Byte>)

  lemma {:induction false} BeforeIs(rs: seq<Range>, start: int, i: nat)
    requires i <= |rs| && (forall k :: 0 <= k < i ==> rs[k].end < start) && (i < |rs| ==> rs[i].end >= start)
    ensures Before(rs, start) == i
  {
    if i > 0 {
      BeforeIs(rs[1..], start, i - 1);
    }
  }

  /** What a part that fits does to the ranges, in terms of those it touches. */
  lemma MergedIs(rs: seq<Range>, first: int, last: int, size: nat, i: nat, m: Merge)
    requires Spaced(rs, size) && 0 <= first < last <= size
    requires i == Before(rs, first) && m == Absorb(rs, i, first, last, 0)
    ensures var merged := rs[..i] + [Range(m.start, m.end)] + rs[m.next..];
            && merged == Merged(rs, first, last) && Spaced(merged, size) && |merged| == |rs| - (m.next - i) + 1
            && TotalLen(merged) == TotalLen(rs) + (m.end - m.start - m.covered)
  {
    MergeStaysSpaced(rs, first, last, size);
    MergeTotal(rs, first, last, size);
  }

  lemma AddIs(s: State, offset: nat, data: seq<Byte>, merged: seq<Range>, added: int)
    requires !Full(s) && data != [] && offset + |data| <= |s.buf|
    requires merged == Merged(s.ranges, offset, offset + |data|) && added == Added(s.ranges, offset, offset + |data|)
    requires TotalLen(merged) == TotalLen(s.ranges) + added
    ensures Add(s, offset, data) == (if added == 0 then (s, Pending)
                                     else if |merged| > MAX_RANGES then (s, TooMany)
                                     else (State(Over(s.buf, offset, data), merged),
                                           if TotalLen(s.ranges) + added == |s.buf| then Ready else Pending))
  {
  }

  class PartitionedMessage {
    const buf: array<Byte>
    const ranges: array<Range>
    var rangeCount: nat
    var gotLen: int

    ghost predicate Valid()
      reads this, buf, ranges
    {
      && ranges.Length == MAX_RANGES && rangeCount <= MAX_RANGES
      && Spaced(ranges[..rangeCount], buf.Length) && gotLen == TotalLen(ranges[..rangeCount])
    }

    ghost function View(): State
      requires rangeCount <= ranges.Length
      reads this, buf, ranges
    {
      State(buf[..], ranges[..rangeCount])
    }

    constructor (size: nat)
      ensures Valid() && fresh(buf) && fresh(ranges)
      ensures View() == Fresh(size)
    {
      buf := new Byte[size](_ => 0);
      ranges := new Range[MAX_RANGES](_ => Range(0, 0));
      rangeCount, gotLen := 0, 0;
    }

    /** Skips the ranges that end before the part, then grows it over the ones it touches. */
    method FindMerge(first: int, last: int) returns (i: nat, j: nat, start: int, end: int, covered: int)
      requires rangeCount <= ranges.Length
      ensures i == Before(ranges[..rangeCount], first) && i <= j <= rangeCount
      ensures Absorb(ranges[..rangeCount], i, first, last, 0) == Merge(j, start, end, covered)
    {
      ghost var rs := ranges[..rangeCount];
      start, end := first, last;
      i := 0;
      while i < rangeCount && ranges[i].end < start
        invariant 0 <= i <= rangeCount && forall k :: 0 <= k < i ==> ranges[k].end < start
      {
        i := i + 1;
      }
      BeforeIs(rs, start, i);
      j, covered := i, 0;
      while j < rangeCount && ranges[j].start <= end
        invariant i <= j <= rangeCount
        invariant Absorb(rs, i, first, last, 0) == Absorb(rs, j, start, end, covered)
        decreases rangeCount - j
      {
        covered := covered + (ranges[j].end - ranges[j].start);
        start := if ranges[j].start < start then ranges[j].start else start;
        end := if ranges[j].end > end then ranges[j].end else end;
        j := j + 1;
      }
    }

    method AddPart(offset: int, data: seq<Byte>) returns (outcome: Outcome)
      requires Valid()
      modifies this, buf, ranges
      ensures Valid() && View() == Add(old(View()), offset, data).0
      ensures outcome == Add(old(View()), offset, data).1
    {
      if gotLen == buf.Length {
        return Pending;
      }
      if |data| == 0 || offset < 0 {
        return Pending;
      }
      if offset > buf.Length || offset + |data| > buf.Length {
        return TooBig;
      }
      outcome := Place(offset, data);
    }

    /** A part that fits a message still incomplete. */
    method Place(offset: nat, data: seq<Byte>) returns (outcome: Outcome)
      requires Valid() && !Full(View()) && data != [] && offset + |data| <= buf.Length
      modifies this, buf, ranges
      ensures Valid() && (View(), outcome) == Add(old(View()), offset, data)
    {
      ghost var s := View();
      var i, j, start, end, covered := FindMerge(offset, offset + |data|);
      var added := end - start - covered;
      MergedIs(s.ranges, offset, offset + |data|, buf.Length, i, Merge(j, start, end, covered));
      AddIs(s, offset, data, s.ranges[..i] + [Range(start, end)] + s.ranges[j..], added);
      if added == 0 {
        return Pending;
      }
      if rangeCount - (j - i) >= MAX_RANGES {
        return TooMany;
      }
      Commit(offset, data, i, j, Range(start, end), added);
      return if gotLen == buf.Length then Ready else Pending;
    }

    /** Copies the part in and puts the grown range in place of the ones it covers. */
    method Commit(offset: nat, data: seq<Byte>, i: nat, j: nat, grown: Range, added: int)
      requires Valid() && offset + |data| <= buf.Length && i <= j <= rangeCount && rangeCount - (j - i) < MAX_RANGES
      requires var merged := ranges[..rangeCount][..i] + [grown] + ranges[..rangeCount][j..];
               Spaced(merged, buf.Length) && TotalLen(merged) == gotLen + added
      modifies this, buf, ranges
      ensures Valid() && gotLen == old(gotLen) + added
      ensures View() == State(Over(old(buf[..]), offset, data), old(ranges[..rangeCount])[..i] + [grown] + old(ranges[..rangeCount])[j..])
    {
      CopyIn(offset, data);
      ReplaceRange(i, j, grown);
      gotLen := gotLen + added;
    }

    method CopyIn(offset: nat, data: seq<Byte>)
      requires offset + |data| <= buf.Length
      modifies buf
      ensures buf[..] == Over(old(buf[..]), offset, data)
    {
      forall k | 0 <= k < |data| {
        buf[offset + k] := data[k];
      }
    }

    /** Replaces the ranges from `i` up to `j` by one, moving the later ones to follow it. */
    method ReplaceRange(i: nat, j: nat, one: Range)
      requires ranges.Length == MAX_RANGES && i <= j <= rangeCount <= MAX_RANGES && rangeCount - (j - i) < MAX_RANGES
      modifies this`rangeCount, ranges
      ensures rangeCount == old(rangeCount) - (j - i) + 1 <= MAX_RANGES
      ensures ranges[..rangeCount] == old(ranges[..rangeCount])[..i] + [one] + old(ranges[..rangeCount])[j..]
    {
      var moved := ranges[j..rangeCount];
      forall k | 0 <= k < |moved| {
        ranges[i + 1 + k] := moved[k];
      }
      rangeCount := rangeCount + 1 - (j - i);
      ranges[i] := one;
    }

    /** The message, once every byte is there and the digest agrees. */
    method Build(sha: seq<Byte> -> int, digest: int) returns (r: Option<seq<Byte>>)
      requires Valid()
      ensures r == if Full(View()) && sha(View().buf) == digest then Some(View().buf) else None
    {
      if gotLen != buf.Length {
        return None;
      }
      if sha(buf[..]) != digest {
        return None;
      }
      return Some(buf[..]);
    }
  }

  function Fresh(size: nat): State {
    State(seq(size, _ => 0), [])
  }

  function PartCount(n: nat, mtu: nat): nat
    requires mtu > 0
  {
    n / mtu + if n % mtu != 0 then 1 else 0
  }

  function PartEnd(n: nat, mtu: nat, i: nat): nat {
    if (i + 1) * mtu > n then n else (i + 1) * mtu
  }

  lemma PartBounds(n: nat, mtu: nat, i: nat)
    requires mtu > 0 && i < PartCount(n, mtu)
    ensures 0 <= i * mtu < PartEnd(n, mtu, i) <= n
  {
    assert n == n / mtu * mtu + n % mtu;
    if i + 1 <= n / mtu {
      assert (i + 1) * mtu <= n / mtu * mtu;
    } else {
      assert i == n / mtu;
    }
    assert (i + 1) * mtu == i * mtu + mtu;
  }

  function PartAt(data: seq<Byte>, mtu: nat, i: nat): Part
    requires mtu > 0 && i < PartCount(|data|, mtu)
  {
    PartBounds(|data|, mtu, i);
    Part(|data|, i * mtu, data[i * mtu..PartEnd(|data|, mtu, i)])
  }

  method SplitMessage(data: seq<Byte>, mtu: nat) returns (parts: seq<Part>)
    requires mtu > 0
    ensures |parts| == PartCount(|data|, mtu)
    ensures forall i :: 0 <= i < |parts| ==> parts[i] == PartAt(data, mtu, i)
  {
    var x := |data| / mtu;
    if |data| % mtu != 0 {
      x := x + 1;
    }
    parts := [];
    for i := 0 to x
      invariant |parts| == i && forall k :: 0 <= k < i ==> parts[k] == PartAt(data, mtu, k)
    {
      PartBounds(|data|, mtu, i);
      var buf := data[i * mtu..];
      if |buf| > mtu {
        buf := buf[..mtu];
      }
      assert (i + 1) * mtu == i * mtu + mtu;
      assert buf == PartAt(data, mtu, i).data;
      parts := parts + [Part(|data|, i * mtu, buf)];
    }
  }

  predicate InPart(n: nat, mtu: nat, p: nat, x: int) {
    p * mtu <= x < PartEnd(n, mtu, p)
  }

  /** Position `x` lies in a part that has arrived. */
  ghost predicate Arrived(n: nat, mtu: nat, got: set<nat>, x: int) {
    exists p :: p in got && InPart(n, mtu, p, x)
  }

  /** After the parts in `got`: their bytes are covered and right. */
  ghost predicate Rebuilt(s: State, data: seq<Byte>, mtu: nat, got: set<nat>)
    requires mtu > 0
  {
    && |s.buf| == |data| && Wf(s)
    && (forall p :: p in got ==> p < PartCount(|data|, mtu))
    && (forall x :: Covered(s.ranges, x) <==> Arrived(|data|, mtu, got, x))
    && (forall x :: 0 <= x < |data| && Covered(s.ranges, x) ==> s.buf[x] == data[x])
  }

  /** Between two ranges a whole part is missing, so the range number `k` starts at part `2k` or later. */
  lemma {:induction false} RangeStart(rs: seq<Range>, n: nat, mtu: nat, got: set<nat>, k: nat) returns (p: nat)
    requires mtu > 0 && Spaced(rs, n) && k < |rs|
    requires forall x :: Covered(rs, x) <==> Arrived(n, mtu, got, x)
    ensures p in got && rs[k].start == p * mtu && p >= 2 * k
  {
    var x := rs[k].start;
    assert Covered(rs, x);
    p :| p in got && InPart(n, mtu, p, x);
    assert p * mtu == x by {
      if p * mtu < x {
        assert InPart(n, mtu, p, x - 1);
        assert Arrived(n, mtu, got, x - 1);
        NotBeforeRange(rs, n, k);
      }
    }
    if k > 0 {
      var q := RangeStart(rs, n, mtu, got, k - 1);
      var e := rs[k - 1].end;
      NotAtEnd(rs, n, k - 1);
      assert !Arrived(n, mtu, got, e);
      assert !InPart(n, mtu, q, e);
      PartsApart(n, mtu, q, p, e);
    }
  }

  lemma NotBeforeRange(rs: seq<Range>, n: nat, k: nat)
    requires Spaced(rs, n) && k < |rs|
    ensures !Covered(rs, rs[k].start - 1)
  {
  }

  lemma NotAtEnd(rs: seq<Range>, n: nat, k: nat)
    requires Spaced(rs, n) && k < |rs|
    ensures !Covered(rs, rs[k].end)
  {
  }

  lemma PartsApart(n: nat, mtu: nat, q: nat, p: nat, e: int)
    requires mtu > 0 && q * mtu < e < p * mtu <= n && !InPart(n, mtu, q, e)
    ensures p >= q + 2
  {
    assert (q + 1) * mtu <= e;
    MulLe(mtu, p, q + 1);
  }

  lemma MulLe(m: nat, x: nat, y: nat)
    ensures x <= y ==> x * m <= y * m
  {
  }

  /** With at most 64 parts there is always room for the ranges. */
  lemma RoomForRanges(rs: seq<Range>, n: nat, mtu: nat, got: set<nat>)
    requires mtu > 0 && Spaced(rs, n) && PartCount(n, mtu) <= 64
    requires forall p :: p in got ==> p < PartCount(n, mtu)
    requires forall x :: Covered(rs, x) <==> Arrived(n, mtu, got, x)
    ensures |rs| <= MAX_RANGES
  {
    if |rs| > MAX_RANGES {
      var p := RangeStart(rs, n, mtu, got, MAX_RANGES);
      assert false;
    }
  }

  lemma ArrivedMore(n: nat, mtu: nat, got: set<nat>, p: nat, x: int)
    ensures Arrived(n, mtu, got + {p}, x) <==> Arrived(n, mtu, got, x) || InPart(n, mtu, p, x)
  {
    if Arrived(n, mtu, got, x) {
      var q :| q in got && InPart(n, mtu, q, x);
      assert q in got + {p};
    }
    if InPart(n, mtu, p, x) {
      assert p in got + {p};
    }
  }

  /** One more part, new or repeated, is never refused and keeps what was rebuilt. */
  lemma PartArrives(s: State, data: seq<Byte>, mtu: nat, got: set<nat>, p: nat)
    requires mtu > 0 && Rebuilt(s, data, mtu, got) && PartCount(|data|, mtu) <= 64 && p < PartCount(|data|, mtu)
    ensures var part := PartAt(data, mtu, p);
            && Add(s, part.offset, part.data).1 in {Ready, Pending}
            && Rebuilt(Add(s, part.offset, part.data).0, data, mtu, got + {p})
  {
    var n, part := |data|, PartAt(data, mtu, p);
    var (s', o) := Add(s, part.offset, part.data);
    PartBounds(n, mtu, p);
    if Full(s) {
      FullIffAll(s.ranges, n);
      forall x
        ensures Covered(s.ranges, x) <==> Arrived(n, mtu, got + {p}, x)
      {
        ArrivedMore(n, mtu, got, p, x);
      }
    } else {
      var end := part.offset + |part.data|;
      var merged := Merged(s.ranges, part.offset, end);
      MergeStaysSpaced(s.ranges, part.offset, end, n);
      forall x
        ensures Covered(merged, x) <==> Arrived(n, mtu, got + {p}, x)
      {
        MergeCovers(s.ranges, part.offset, end, n, x);
        ArrivedMore(n, mtu, got, p, x);
      }
      RoomForRanges(merged, n, mtu, got + {p});
      AddKeepsWf(s, part.offset, part.data);
      assert o != TooMany;
      PartAccepted(s, data, mtu, got, p);
    }
  }

  lemma PartAccepted(s: State, data: seq<Byte>, mtu: nat, got: set<nat>, p: nat)
    requires mtu > 0 && Rebuilt(s, data, mtu, got) && p < PartCount(|data|, mtu) && !Full(s)
    requires Add(s, PartAt(data, mtu, p).offset, PartAt(data, mtu, p).data).1 in {Ready, Pending}
    ensures Rebuilt(Add(s, PartAt(data, mtu, p).offset, PartAt(data, mtu, p).data).0, data, mtu, got + {p})
  {
    var n, part := |data|, PartAt(data, mtu, p);
    var s' := Add(s, part.offset, part.data).0;
    PartBounds(n, mtu, p);
    AddKeepsWf(s, part.offset, part.data);
    forall x
      ensures Covered(s'.ranges, x) <==> Arrived(n, mtu, got + {p}, x)
      ensures 0 <= x < n && Covered(s'.ranges, x) ==> s'.buf[x] == data[x]
    {
      AddCovers(s, part.offset, part.data, x);
      ArrivedMore(n, mtu, got, p, x);
      if 0 <= x < n {
        AddWrites(s, part.offset, part.data, x);
      }
    }
  }

  /** The state after the parts named by `order` have arrived, and how many of them reported the message ready. */
  function Deliver(data: seq<Byte>, mtu: nat, order: seq<nat>): (State, nat, bool)
    requires mtu > 0 && forall i :: 0 <= i < |order| ==> order[i] < PartCount(|data|, mtu)
  {
    if order == [] then (Fresh(|data|), 0, true)
    else
      var (s, ready, fine) := Deliver(data, mtu, order[..|order| - 1]);
      var part := PartAt(data, mtu, order[|order| - 1]);
      var (s', o) := Add(s, part.offset, part.data);
      (s', ready + if o == Ready then 1 else 0, fine && o in {Ready, Pending})
  }

  function Members(order: seq<nat>): set<nat> {
    set p | p in order
  }

  lemma DeliverOne(s: State, data: seq<Byte>, mtu: nat, got: set<nat>, p: nat, ready: nat)
    requires mtu > 0 && Rebuilt(s, data, mtu, got) && PartCount(|data|, mtu) <= 64 && p < PartCount(|data|, mtu)
    requires ready == if Full(s) then 1 else 0
    ensures var (s', o) := Add(s, PartAt(data, mtu, p).offset, PartAt(data, mtu, p).data);
            && o in {Ready, Pending} && Rebuilt(s', data, mtu, got + {p})
            && ready + (if o == Ready then 1 else 0) == if Full(s') then 1 else 0
  {
    PartArrives(s, data, mtu, got, p);
    AddKeepsWf(s, PartAt(data, mtu, p).offset, PartAt(data, mtu, p).data);
  }

  lemma {:induction false} DeliverRebuilds(data: seq<Byte>, mtu: nat, order: seq<nat>)
    requires mtu > 0 && 0 < |data| && PartCount(|data|, mtu) <= 64
    requires forall i :: 0 <= i < |order| ==> order[i] < PartCount(|data|, mtu)
    ensures var (s, ready, fine) := Deliver(data, mtu, order);
            fine && Rebuilt(s, data, mtu, Members(order)) && ready == if Full(s) then 1 else 0
  {
    if order == [] {
      assert forall x :: !Covered([], x);
    } else {
      var front, p := order[..|order| - 1], order[|order| - 1];
      DeliverRebuilds(data, mtu, front);
      var (s, ready, _) := Deliver(data, mtu, front);
      DeliverOne(s, data, mtu, Members(front), p, ready);
      LastMember(order);
    }
  }

  lemma LastMember(order: seq<nat>)
    requires order != []
    ensures Members(order) == Members(order[..|order| - 1]) + {order[|order| - 1]}
  {
    assert order == order[..|order| - 1] + [order[|order| - 1]];
  }

  /** A split message of up to 64 parts: no delivery order and no repetition is ever refused; once every part has arrived the
      buffer is the message, and exactly one delivery reported it ready. */
  lemma AnyOrderRebuilds(data: seq<Byte>, mtu: nat, order: seq<nat>)
    requires mtu > 0 && 0 < |data| && PartCount(|data|, mtu) <= 64
    requires forall i :: 0 <= i < |order| ==> order[i] < PartCount(|data|, mtu)
    requires forall p :: 0 <= p < PartCount(|data|, mtu) ==> p in order
    ensures var (s, ready, fine) := Deliver(data, mtu, order);
            fine && s.buf == data && Full(s) && ready == 1
  {
    DeliverRebuilds(data, mtu, order);
    var s := Deliver(data, mtu, order).0;
    AllArrived(|data|, mtu, order);
    FullIffAll(s.ranges, |data|);
  }

  lemma AllArrived(n: nat, mtu: nat, order: seq<nat>)
    requires mtu > 0 && forall p :: 0 <= p < PartCount(n, mtu) ==> p in order
    ensures forall x :: 0 <= x < n ==> Arrived(n, mtu, Members(order), x)
  {
    forall x | 0 <= x < n
      ensures Arrived(n, mtu, Members(order), x)
    {
      var p := PartOf(n, mtu, x);
      assert p in Members(order);
    }
  }

  lemma PartOf(n: nat, mtu: nat, x: nat) returns (p: nat)
    requires mtu > 0 && x < n
    ensures p < PartCount(n, mtu) && InPart(n, mtu, p, x)
  {
    p := x / mtu;
    assert x == p * mtu + x % mtu;
    assert (p + 1) * mtu == p * mtu + mtu;
    assert n == n / mtu * mtu + n % mtu;
    assert (n / mtu + 1) * mtu == n / mtu * mtu + mtu;
    MulLe(mtu, n / mtu + 1, p);
  }

  // ---- The limit is exact ----

  /** Every other part: 0, 2, 4 and so on. */
  function Evens(j: nat): seq<nat> {
    seq(j, i => 2 * i)
  }

  function EvenRange(mtu: nat, i: nat): Range {
    Range(2 * i * mtu, (2 * i + 1) * mtu)
  }

  function EvenRanges(mtu: nat, j: nat): seq<Range> {
    seq(j, i requires 0 <= i < j => EvenRange(mtu, i))
  }

  lemma EvensEnd(mtu: nat, i: nat, j: nat)
    requires mtu > 0 && i < j
    ensures (2 * i + 1) * mtu < 2 * j * mtu
  {
    MulLe(mtu, 2 * i + 2, 2 * j);
    assert (2 * i + 2) * mtu == (2 * i + 1) * mtu + mtu;
  }

  lemma {:induction false} EvensTotal(mtu: nat, j: nat)
    ensures TotalLen(EvenRanges(mtu, j)) == j * mtu
  {
    if j > 0 {
      var front := EvenRanges(mtu, j - 1);
      EvensTotal(mtu, j - 1);
      assert EvenRanges(mtu, j) == front + [EvenRange(mtu, j - 1)];
      TotalAdds(front, [EvenRange(mtu, j - 1)]);
      assert TotalLen([EvenRange(mtu, j - 1)]) == (2 * (j - 1) + 1) * mtu - 2 * (j - 1) * mtu == mtu;
      assert j * mtu == (j - 1) * mtu + mtu;
    }
  }

  /** One more even part touches none of those before it. */
  lemma EvenPartMerges(n: nat, mtu: nat, j: nat)
    requires mtu > 0 && 2 * j < PartCount(n, mtu)
    ensures var (rs, start, end) := (EvenRanges(mtu, j), 2 * j * mtu, PartEnd(n, mtu, 2 * j));
            Merged(rs, start, end) == rs + [Range(start, end)] && Added(rs, start, end) == end - start > 0
  {
    var (rs, start, end) := (EvenRanges(mtu, j), 2 * j * mtu, PartEnd(n, mtu, 2 * j));
    PartBounds(n, mtu, 2 * j);
    forall k | 0 <= k < j
      ensures rs[k].end < start
    {
      EvensEnd(mtu, k, j);
    }
    BeforeIs(rs, start, j);
    assert rs[..j] == rs && rs[j..] == [];
  }

  lemma PartsReach(n: nat, mtu: nat, k: nat)
    requires mtu > 0 && k < PartCount(n, mtu)
    ensures k * mtu < n
  {
    PartBounds(n, mtu, k);
  }

  lemma EvensAllowed(n: nat, mtu: nat, j: nat)
    requires mtu > 0 && j <= 33 && PartCount(n, mtu) > 64
    ensures forall i :: 0 <= i < |Evens(j)| ==> Evens(j)[i] < PartCount(n, mtu)
  {
  }

  /** The first 32 even parts are taken, each as a range of its own. */
  lemma {:induction false} EvensArrive(data: seq<Byte>, mtu: nat, j: nat)
    requires mtu > 0 && j <= MAX_RANGES && PartCount(|data|, mtu) > 64
    ensures forall i :: 0 <= i < |Evens(j)| ==> Evens(j)[i] < PartCount(|data|, mtu)
    ensures var s := Deliver(data, mtu, Evens(j)).0; s.ranges == EvenRanges(mtu, j) && |s.buf| == |data|
  {
    EvensAllowed(|data|, mtu, j);
    if j > 0 {
      EvensArrive(data, mtu, j - 1);
      assert Evens(j)[..j - 1] == Evens(j - 1);
      EvenArrives(Deliver(data, mtu, Evens(j - 1)).0, data, mtu, j - 1);
    }
  }

  lemma EvenArrives(s: State, data: seq<Byte>, mtu: nat, j: nat)
    requires mtu > 0 && j < MAX_RANGES && PartCount(|data|, mtu) > 64
    requires s.ranges == EvenRanges(mtu, j) && |s.buf| == |data|
    ensures var s' := Add(s, PartAt(data, mtu, 2 * j).offset, PartAt(data, mtu, 2 * j).data).0;
            s'.ranges == EvenRanges(mtu, j + 1) && |s'.buf| == |data|
  {
    var n := |data|;
    EvenPartMerges(n, mtu, j);
    NotFullYet(s, data, mtu, j);
    PartBounds(n, mtu, 2 * j);
    PartsReach(n, mtu, 64);
    MulLe(mtu, 2 * j + 1, 64);
    assert PartEnd(n, mtu, 2 * j) == (2 * j + 1) * mtu;
    assert EvenRanges(mtu, j + 1) == EvenRanges(mtu, j) + [EvenRange(mtu, j)];
  }

  lemma NotFullYet(s: State, data: seq<Byte>, mtu: nat, j: nat)
    requires mtu > 0 && j <= MAX_RANGES && PartCount(|data|, mtu) > 64 && s.ranges == EvenRanges(mtu, j) && |s.buf| == |data|
    ensures !Full(s)
  {
    EvensTotal(mtu, j);
    PartsReach(|data|, mtu, 64);
    MulLe(mtu, j, 64);
  }

  /** With more than 64 parts some order is refused, so the limit of `AnyOrderRebuilds` is exact. */
  lemma MoreThan64Refused(data: seq<Byte>, mtu: nat)
    requires mtu > 0 && PartCount(|data|, mtu) > 64
    ensures forall i :: 0 <= i < |Evens(33)| ==> Evens(33)[i] < PartCount(|data|, mtu)
    ensures !Deliver(data, mtu, Evens(33)).2
  {
    EvensAllowed(|data|, mtu, 33);
    EvensArrive(data, mtu, 32);
    assert Evens(33)[..32] == Evens(32);
    NoRoomLeft(Deliver(data, mtu, Evens(32)).0, data, mtu);
  }

  lemma NoRoomLeft(s: State, data: seq<Byte>, mtu: nat)
    requires mtu > 0 && PartCount(|data|, mtu) > 64 && s.ranges == EvenRanges(mtu, 32) && |s.buf| == |data|
    ensures Add(s, PartAt(data, mtu, 64).offset, PartAt(data, mtu, 64).data).1 == TooMany
  {
    NotFullYet(s, data, mtu, 32);
    EvenPartMerges(|data|, mtu, 32);
    PartBounds(|data|, mtu, 64);
  }
}
