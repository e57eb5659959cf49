/** Lists stored in chained cells (tlb/array.go): packed from the back into cells that are full but never too full, with the
    reference to the next cell first or last, and read back front to back. */
module ArrayChunks {
  import opened Options
  import opened Powers
  import opened BitNumbers
  import opened Cells

  /** What a builder holds, or what is left of a slice. */
  datatype Piece = Piece(bits: seq<bool>, refs: seq<Cell>) {
    function Then(p: Piece): Piece {
      Piece(bits + p.bits, refs + p.refs)
    }

    predicate Empty() {
      bits == [] && refs == []
    }
  }

  const NOTHING: Piece := Piece([], [])

  function Join(ps: seq<Piece>): Piece {
    if ps == [] then NOTHING else ps[0].Then(Join(ps[1..]))
  }

  lemma ThenAssoc(a: Piece, b: Piece, d: Piece)
    ensures a.Then(b).Then(d) == a.Then(b.Then(d))
  {
  }

  lemma {:induction false} JoinAppend(ps: seq<Piece>, p: Piece)
    ensures Join(ps + [p]) == Join(ps).Then(p)
  {
    if ps == [] {
      assert [p][1..] == [];
      assert p.Then(NOTHING) == p && NOTHING.Then(p) == p;
    } else {
      JoinAppend(ps[1..], p);
      assert (ps + [p])[1..] == ps[1..] + [p];
      ThenAssoc(ps[0], Join(ps[1..]), p);
    }
  }

  lemma {:induction false} JoinCat(a: seq<Piece>, b: seq<Piece>)
    ensures Join(a + b) == Join(a).Then(Join(b))
  {
    if a == [] {
      assert a + b == b && NOTHING.Then(Join(b)) == Join(b);
    } else {
      JoinCat(a[1..], b);
      assert (a + b)[1..] == a[1..] + b;
      ThenAssoc(a[0], Join(a[1..]), Join(b));
    }
  }

  /** A part takes no more room than the whole. */
  lemma PartWithin(ps: seq<Piece>, lo: nat, hi: nat)
    requires lo <= hi <= |ps|
    ensures |Join(ps[lo..hi]).bits| <= |Join(ps).bits| && |Join(ps[lo..hi]).refs| <= |Join(ps).refs|
  {
    assert ps == ps[..lo] + (ps[lo..hi] + ps[hi..]);
    JoinCat(ps[lo..hi], ps[hi..]);
    JoinCat(ps[..lo], ps[lo..hi] + ps[hi..]);
  }

  lemma MemberWithin(ps: seq<Piece>, i: nat)
    requires i < |ps|
    ensures |ps[i].bits| <= |Join(ps).bits| && |ps[i].refs| <= |Join(ps).refs|
  {
    PartWithin(ps, i, i + 1);
    assert ps[i..i + 1] == [ps[i]] && [ps[i]][1..] == [];
    assert ps[i].Then(NOTHING) == ps[i];
  }

  predicate FitsLast(p: Piece) {
    1 + |p.bits| <= MAX_BITS && |p.refs| <= MAX_REFS
  }

  predicate FitsBesideNext(p: Piece) {
    1 + |p.bits| <= MAX_BITS && |p.refs| < MAX_REFS
  }

  /** The list can be cut before `s`: the rest fits the last cell, and every element before fits a cell with a next reference. */
  ghost predicate LastFrom(elems: seq<Piece>, s: nat) {
    s < |elems| && FitsLast(Join(elems[s..])) && forall i :: 0 <= i < s ==> FitsBesideNext(elems[i])
  }

  ghost predicate Packable(elems: seq<Piece>) {
    exists s: nat :: LastFrom(elems, s)
  }

  function Flatten<T>(chunks: seq<seq<T>>): seq<T> {
    if chunks == [] then [] else chunks[0] + Flatten(chunks[1..])
  }

  function WithNext(chunk: Piece, next: Option<Cell>, nextRefFirst: bool): Cell {
    match next
    case None => Cell(Ordinary, [false] + chunk.bits, chunk.refs)
    case Some(n) => Cell(Ordinary, [true] + chunk.bits, if nextRefFirst then [n] + chunk.refs else chunk.refs + [n])
  }

  /** The first bit of a cell says whether there is a next one; its reference is the first or the last. */
  lemma WithNextIs(chunk: Piece, next: Option<Cell>, nextRefFirst: bool)
    ensures var w := WithNext(chunk, next, nextRefFirst);
            && w.kind == Ordinary && |w.bits| == 1 + |chunk.bits| && w.bits[0] == next.Some? && w.bits[1..] == chunk.bits
            && (next.None? ==> w.refs == chunk.refs)
            && (next.Some? ==> |w.refs| == 1 + |chunk.refs|)
            && (next.Some? && nextRefFirst ==> w.refs[0] == next.value && w.refs[1..] == chunk.refs)
            && (next.Some? && !nextRefFirst ==> w.refs[|chunk.refs|] == next.value && w.refs[..|chunk.refs|] == chunk.refs)
  {
  }

  /** The chain of cells for a list already cut into chunks. */
  function Laid(chunks: seq<seq<Piece>>, nextRefFirst: bool): Cell
    requires |chunks| > 0
  {
    WithNext(Join(chunks[0]), if |chunks| == 1 then None else Some(Laid(chunks[1..], nextRefFirst)), nextRefFirst)
  }

  /** Every cell of the chain holds at most 1023 bits and 4 references, and at least one element. */
  ghost predicate Packed(chunks: seq<seq<Piece>>) {
    forall i :: 0 <= i < |chunks| ==>
      && chunks[i] != []
      && 1 + |Join(chunks[i]).bits| <= MAX_BITS
      && |Join(chunks[i]).refs| + (if i + 1 < |chunks| then 1 else 0) <= MAX_REFS
  }

  /** How many of the elements before `idx` go into one cell, going backward. */
  method FindStart(elems: seq<Piece>, idx: nat, hasNext: bool) returns (start: nat)
    requires 0 < idx <= |elems|
    ensures start <= idx
    ensures 1 + |Join(elems[start..idx]).bits| <= MAX_BITS
    ensures |Join(elems[start..idx]).refs| + (if hasNext then 1 else 0) <= MAX_REFS
    ensures start == idx <==> !(if hasNext then FitsBesideNext(elems[idx - 1]) else FitsLast(elems[idx - 1]))
    ensures start > 0 ==>
              var more := Join(elems[start - 1..idx]);
              1 + |more.bits| > MAX_BITS || |more.refs| + (if hasNext then 1 else 0) > MAX_REFS
  {
    start := idx;
    var bits, refs := 1, if hasNext then 1 else 0;
    while start > 0
      invariant start <= idx
      invariant bits == 1 + |Join(elems[start..idx]).bits| <= MAX_BITS
      invariant refs == |Join(elems[start..idx]).refs| + (if hasNext then 1 else 0) <= MAX_REFS
      invariant start < idx ==> if hasNext then FitsBesideNext(elems[idx - 1]) else FitsLast(elems[idx - 1])
    {
      var elem := elems[start - 1];
      assert elems[start - 1..idx][1..] == elems[start..idx];
      if bits + |elem.bits| >= 1024 || refs + |elem.refs| > 4 {
        break;
      }
      start := start - 1;
      bits, refs := bits + |elem.bits|, refs + |elem.refs|;
    }
  }

  method BuildChunk(elems: seq<Piece>, start: nat, idx: nat, next: Option<Cell>, nextRefFirst: bool) returns (chunk: Cell)
    requires start <= idx <= |elems|
    ensures chunk == WithNext(Join(elems[start..idx]), next, nextRefFirst)
  {
    var b := Piece([next.Some?], []);
    if next.Some? && nextRefFirst {
      b := Piece(b.bits, [next.value]);
    }
    ghost var head := b;
    for i := start to idx
      invariant b == head.Then(Join(elems[start..i]))
    {
      b := b.Then(elems[i]);
      assert elems[start..i + 1] == elems[start..i] + [elems[i]];
      JoinAppend(elems[start..i], elems[i]);
      ThenAssoc(head, Join(elems[start..i]), elems[i]);
    }
    if next.Some? && !nextRefFirst {
      b := Piece(b.bits, b.refs + [next.value]);
    }
    return Cell(Ordinary, b.bits, b.refs);
  }

  /** The last cell was filled as far as it goes, and nothing before it was in the way so far. */
  ghost predicate Filled(elems: seq<Piece>, last: nat, idx: nat) {
    && idx <= last < |elems| && FitsLast(Join(elems[last..]))
    && (last > 0 ==> !FitsLast(Join(elems[last - 1..])))
    && (forall i :: idx <= i < last ==> FitsBesideNext(elems[i]))
  }

  lemma FilledFirst(elems: seq<Piece>, start: nat)
    requires start < |elems| && FitsLast(Join(elems[start..])) && (start > 0 ==> !FitsLast(Join(elems[start - 1..])))
    ensures Filled(elems, start, start)
  {
  }

  lemma FilledMore(elems: seq<Piece>, last: nat, idx: nat, start: nat)
    requires Filled(elems, last, idx) && start <= idx && FitsBesideNext(Join(elems[start..idx]))
    ensures Filled(elems, last, start)
  {
    forall i | start <= i < idx
      ensures FitsBesideNext(elems[i])
    {
      assert elems[start..idx][i - start] == elems[i];
      MemberWithin(elems[start..idx], i - start);
    }
  }

  /** A cell that cannot take the next element rules out every cut. */
  lemma StuckIsUnpackable(elems: seq<Piece>, last: nat, idx: nat)
    requires Filled(elems, last, idx) && idx > 0 && !FitsBesideNext(elems[idx - 1])
    ensures !Packable(elems)
  {
    forall s: nat | LastFrom(elems, s)
      ensures false
    {
      if s < last {
        assert elems[s..][last - 1 - s..|elems| - s] == elems[last - 1..];
        PartWithin(elems[s..], last - 1 - s, |elems| - s);
      }
    }
  }

  lemma TooLargeIsUnpackable(elems: seq<Piece>)
    requires elems != [] && !FitsLast(elems[|elems| - 1])
    ensures !Packable(elems)
  {
    forall s: nat | LastFrom(elems, s)
      ensures false
    {
      MemberWithin(elems[s..], |elems| - 1 - s);
    }
  }

  /** Packs the elements from the back. Nothing comes back exactly when no cut of the list has cells that are not too full. */
  method BuildArrayChunks(elems: seq<Piece>, nextRefFirst: bool) returns (first: Option<Cell>, ghost chunks: seq<seq<Piece>>)
    requires elems != []
    ensures first.Some? ==> Flatten(chunks) == elems && |chunks| > 0 && Packed(chunks) && first.value == Laid(chunks, nextRefFirst)
    ensures first.Some? <==> Packable(elems)
  {
    var idx: nat := |elems|;
    first, chunks := None, [];
    ghost var last: nat := 0;
    while idx > 0
      invariant idx <= |elems| && Flatten(chunks) == elems[idx..] && Packed(chunks)
      invariant first.Some? <==> chunks != []
      invariant idx < |elems| <==> chunks != []
      invariant first.Some? ==> first.value == Laid(chunks, nextRefFirst) && Filled(elems, last, idx)
    {
      var start := FindStart(elems, idx, first.Some?);
      if start == idx {
        if first.Some? {
          StuckIsUnpackable(elems, last, idx);
        } else {
          TooLargeIsUnpackable(elems);
        }
        return None, chunks;
      }
      if first.Some? {
        FilledMore(elems, last, idx, start);
      } else {
        last := start;
        assert elems[start..idx] == elems[start..] && (start > 0 ==> elems[start - 1..idx] == elems[start - 1..]);
        FilledFirst(elems, start);
      }
      var chunk := BuildChunk(elems, start, idx, first, nextRefFirst);
      chunks := AddChunk(elems, start, idx, chunks);
      first, idx := Some(chunk), start;
    }
    assert elems[0..] == elems;
    assert LastFrom(elems, last);
  }

  lemma AddChunk(elems: seq<Piece>, start: nat, idx: nat, chunks: seq<seq<Piece>>) returns (next: seq<seq<Piece>>)
    requires start < idx <= |elems| && Flatten(chunks) == elems[idx..] && Packed(chunks)
    requires 1 + |Join(elems[start..idx]).bits| <= MAX_BITS
    requires |Join(elems[start..idx]).refs| + (if chunks != [] then 1 else 0) <= MAX_REFS
    ensures next == [elems[start..idx]] + chunks && next[1..] == chunks
    ensures Flatten(next) == elems[start..] && Packed(next)
  {
    next := [elems[start..idx]] + chunks;
    assert next[1..] == chunks;
    assert elems[start..] == elems[start..idx] + elems[idx..];
    PackedMore(elems[start..idx], chunks);
  }

  lemma PackedMore(chunk: seq<Piece>, chunks: seq<seq<Piece>>)
    requires Packed(chunks) && chunk != [] && 1 + |Join(chunk).bits| <= MAX_BITS
    requires |Join(chunk).refs| + (if chunks != [] then 1 else 0) <= MAX_REFS
    ensures Packed([chunk] + chunks)
  {
  }

  // ---- Reading back ----

  /** Elements with their encoding. */
  datatype Codec<!T> = Codec(enc: T -> Piece, dec: Piece -> Option<(T, Piece)>)

  /** An element that takes some room and is read back from in front of anything. */
  ghost predicate Delimited<T>(c: Codec<T>, v: T) {
    !c.enc(v).Empty() && forall rest :: c.dec(c.enc(v).Then(rest)) == Some((v, rest))
  }

  ghost predicate AllDelimited<T>(c: Codec<T>, vs: seq<T>) {
    forall i :: 0 <= i < |vs| ==> Delimited(c, vs[i])
  }

  function Pieces<T>(c: Codec<T>, vs: seq<T>): seq<Piece> {
    seq(|vs|, i requires 0 <= i < |vs| => c.enc(vs[i]))
  }

  /** Reads elements until `n` are there or the cell is used up; each must take something. */
  function LoadElems<T>(c: Codec<T>, p: Piece, n: nat): Option<(seq<T>, Piece)>
    decreases n
  {
    if n == 0 || p.Empty() then Some(([], p))
    else
      var r :- c.dec(p);
      if |r.1.bits| == |p.bits| && |r.1.refs| == |p.refs| then None
      else
        var rest :- LoadElems(c, r.1, n - 1);
        Some(([r.0] + rest.0, rest.1))
  }

  /** Elements that take no room at all, from a cell that is used up. */
  function LoadEmpties<T>(c: Codec<T>, p: Piece, n: nat): Option<(seq<T>, Piece)>
    decreases n
  {
    if n == 0 then Some(([], p))
    else
      var r :- c.dec(p);
      var rest :- LoadEmpties(c, r.1, n - 1);
      Some(([r.0] + rest.0, rest.1))
  }

  /** The flag, the next cell and the payload of a chunk. */
  function Open(ref: Cell, nextRefFirst: bool): (r: Option<(Option<Cell>, Piece)>)
    ensures r.Some? && r.value.0.Some? ==> r.value.0.value in ref.refs
  {
    if ref.bits == [] then None
    else if !ref.bits[0] then Some((None, Piece(ref.bits[1..], ref.refs)))
    else if ref.refs == [] then None
    else if nextRefFirst then Some((Some(ref.refs[0]), Piece(ref.bits[1..], ref.refs[1..])))
    else Some((Some(ref.refs[|ref.refs| - 1]), Piece(ref.bits[1..], ref.refs[..|ref.refs| - 1])))
  }

  /** The elements of one chunk, and those that take no room if it is the last. */
  function LoadChunk<T>(c: Codec<T>, last: bool, p: Piece, n: nat): Option<(seq<T>, Piece)> {
    var r :- LoadElems(c, p, n);
    if |r.0| < n && r.1.Empty() && last then
      var more :- LoadEmpties(c, r.1, n - |r.0|);
      Some((r.0 + more.0, more.1))
    else Some(r)
  }

  lemma {:induction false} LoadedAtMost<T>(c: Codec<T>, p: Piece, n: nat)
    ensures LoadElems(c, p, n).Some? ==> |LoadElems(c, p, n).value.0| <= n
    ensures LoadEmpties(c, p, n).Some? ==> |LoadEmpties(c, p, n).value.0| == n
    decreases n
  {
    if n > 0 && c.dec(p).Some? {
      LoadedAtMost(c, c.dec(p).value.1, n - 1);
    }
  }

  /** The remaining `n` elements, from `ref` on. */
  function LoadFrom<T>(c: Codec<T>, ref: Cell, n: nat, nextRefFirst: bool): Option<seq<T>>
    decreases ref
  {
    var open :- Open(ref, nextRefFirst);
    var loaded :- LoadChunk(c, open.0.None?, open.1, n);
    if !loaded.1.Empty() then None
    else if |loaded.0| >= n then
      if open.0.Some? then None else Some(loaded.0)
    else if open.0.None? then None
    else
      var rest :- LoadFrom(c, open.0.value, n - |loaded.0|, nextRefFirst);
      Some(loaded.0 + rest)
  }

  ghost function Prefixed<T>(front: seq<T>, rest: Option<seq<T>>): Option<seq<T>> {
    match rest
    case None => None
    case Some(vs) => Some(front + vs)
  }

  lemma PrefixedNothing<T>(rest: Option<seq<T>>)
    ensures Prefixed([], rest) == rest
  {
    if rest.Some? {
      assert [] + rest.value == rest.value;
    }
  }

  lemma LoadStep<T>(c: Codec<T>, ref: Cell, n: nat, nextRefFirst: bool, next: Cell, p: Piece, vs: seq<T>, left: Piece)
    requires Open(ref, nextRefFirst) == Some((Some(next), p)) && LoadChunk(c, false, p, n) == Some((vs, left))
    requires left.Empty() && |vs| < n
    ensures LoadFrom(c, ref, n, nextRefFirst) == Prefixed(vs, LoadFrom(c, next, n - |vs|, nextRefFirst))
  {
  }

  lemma LoadLast<T>(c: Codec<T>, ref: Cell, n: nat, nextRefFirst: bool, p: Piece, vs: seq<T>, left: Piece)
    requires Open(ref, nextRefFirst) == Some((None, p)) && LoadChunk(c, true, p, n) == Some((vs, left))
    requires left.Empty() && |vs| >= n
    ensures LoadFrom(c, ref, n, nextRefFirst) == Some(vs)
  {
  }

  lemma {:induction false} ElemsLoad<T>(c: Codec<T>, vs: seq<T>, n: nat)
    requires AllDelimited(c, vs) && |vs| <= n
    ensures LoadElems(c, Join(Pieces(c, vs)), n) == Some((vs, NOTHING))
    decreases |vs|
  {
    if vs != [] {
      var p, tail := c.enc(vs[0]), Join(Pieces(c, vs[1..]));
      assert Pieces(c, vs)[1..] == Pieces(c, vs[1..]);
      assert Delimited(c, vs[0]);
      assert Join(Pieces(c, vs)) == p.Then(tail);
      assert c.dec(p.Then(tail)) == Some((vs[0], tail));
      ElemsLoad(c, vs[1..], n - 1);
      assert [vs[0]] + vs[1..] == vs;
    }
  }

  lemma OpenLaid(chunk: Piece, next: Option<Cell>, nextRefFirst: bool)
    ensures Open(WithNext(chunk, next, nextRefFirst), nextRefFirst) == Some((next, chunk))
  {
    var w := WithNext(chunk, next, nextRefFirst);
    assert w.bits[1..] == chunk.bits;
    if next.Some? {
      if nextRefFirst {
        assert w.refs[1..] == chunk.refs;
      } else {
        assert w.refs[..|w.refs| - 1] == chunk.refs;
      }
    }
  }

  function AllPieces<T>(c: Codec<T>, chunks: seq<seq<T>>): seq<seq<Piece>> {
    seq(|chunks|, i requires 0 <= i < |chunks| => Pieces(c, chunks[i]))
  }

  lemma ChunkLoads<T>(c: Codec<T>, vs: seq<T>, last: bool, n: nat)
    requires AllDelimited(c, vs) && |vs| <= n && (last ==> |vs| == n)
    ensures LoadChunk(c, last, Join(Pieces(c, vs)), n) == Some((vs, NOTHING))
  {
    ElemsLoad(c, vs, n);
  }

  /** A chain laid out over any cut of the list reads back as the list, with the next reference in either place. */
  lemma {:induction false} ChainLoads<T>(c: Codec<T>, chunks: seq<seq<T>>, nextRefFirst: bool)
    requires |chunks| > 0 && AllDelimited(c, Flatten(chunks)) && forall i :: 0 <= i < |chunks| ==> chunks[i] != []
    ensures LoadFrom(c, Laid(AllPieces(c, chunks), nextRefFirst), |Flatten(chunks)|, nextRefFirst) == Some(Flatten(chunks))
    decreases |chunks|
  {
    hide LoadFrom, Laid, Delimited;
    SplitFlat(chunks);
    if |chunks| == 1 {
      LastLoads(c, chunks, nextRefFirst);
    } else {
      var next := Laid(AllPieces(c, chunks[1..]), nextRefFirst);
      ChainLoads(c, chunks[1..], nextRefFirst);
      FirstLoads(c, chunks, nextRefFirst, next, |Flatten(chunks)|);
      assert chunks[0] + Flatten(chunks[1..]) == Flatten(chunks);
    }
  }

  lemma LastLoads<T>(c: Codec<T>, chunks: seq<seq<T>>, nextRefFirst: bool)
    requires |chunks| == 1 && AllDelimited(c, chunks[0])
    ensures LoadFrom(c, Laid(AllPieces(c, chunks), nextRefFirst), |chunks[0]|, nextRefFirst) == Some(chunks[0])
  {
    var ps := AllPieces(c, chunks);
    var p := Join(ps[0]);
    OpenLaid(p, None, nextRefFirst);
    ChunkLoads(c, chunks[0], true, |chunks[0]|);
    LoadLast(c, Laid(ps, nextRefFirst), |chunks[0]|, nextRefFirst, p, chunks[0], NOTHING);
  }

  lemma FirstLoads<T>(c: Codec<T>, chunks: seq<seq<T>>, nextRefFirst: bool, next: Cell, n: nat)
    requires |chunks| > 1 && AllDelimited(c, chunks[0]) && |chunks[0]| < n && next == Laid(AllPieces(c, chunks[1..]), nextRefFirst)
    ensures LoadFrom(c, Laid(AllPieces(c, chunks), nextRefFirst), n, nextRefFirst) ==
            Prefixed(chunks[0], LoadFrom(c, next, n - |chunks[0]|, nextRefFirst))
  {
    var ps := AllPieces(c, chunks);
    var p := Join(ps[0]);
    assert ps[1..] == AllPieces(c, chunks[1..]);
    OpenLaid(p, Some(next), nextRefFirst);
    ChunkLoads(c, chunks[0], false, n);
    LoadStep(c, Laid(ps, nextRefFirst), n, nextRefFirst, next, p, chunks[0], NOTHING);
  }

  lemma SplitFlat<T>(chunks: seq<seq<T>>)
    requires |chunks| > 0 && forall i :: 0 <= i < |chunks| ==> chunks[i] != []
    ensures var (flat, k) := (Flatten(chunks), |chunks[0]|);
            k <= |flat| && flat[..k] == chunks[0] && flat[k..] == Flatten(chunks[1..])
    ensures |chunks| == 1 ==> Flatten(chunks) == chunks[0]
    ensures |chunks| > 1 ==> |chunks[0]| < |Flatten(chunks)|
  {
    if |chunks| > 1 {
      assert Flatten(chunks[1..]) == chunks[1] + Flatten(chunks[1..][1..]);
    } else {
      assert chunks[1..] == [];
    }
  }

  /** Cuts a list the way its pieces were cut. */
  ghost function CutLike<T>(vs: seq<T>, chunks: seq<seq<Piece>>): seq<seq<T>>
    requires |Flatten(chunks)| == |vs|
  {
    if chunks == [] then [] else [vs[..|chunks[0]|]] + CutLike(vs[|chunks[0]|..], chunks[1..])
  }

  lemma {:induction false} CutsMatch<T>(c: Codec<T>, vs: seq<T>, chunks: seq<seq<Piece>>)
    requires Flatten(chunks) == Pieces(c, vs)
    ensures Flatten(CutLike(vs, chunks)) == vs && AllPieces(c, CutLike(vs, chunks)) == chunks
    decreases |chunks|
  {
    if chunks != [] {
      var k := |chunks[0]|;
      assert Flatten(chunks)[..k] == chunks[0] && Flatten(chunks)[k..] == Flatten(chunks[1..]);
      assert Pieces(c, vs)[..k] == Pieces(c, vs[..k]) && Pieces(c, vs)[k..] == Pieces(c, vs[k..]);
      CutsMatch(c, vs[k..], chunks[1..]);
      var cut := CutLike(vs, chunks);
      assert cut[1..] == CutLike(vs[k..], chunks[1..]);
      assert AllPieces(c, cut) == [Pieces(c, vs[..k])] + AllPieces(c, cut[1..]);
      assert vs == vs[..k] + vs[k..];
    }
  }

  /** However the pieces of a list were packed, loading gives the list back. */
  lemma PackedLoads<T>(c: Codec<T>, vs: seq<T>, chunks: seq<seq<Piece>>, nextRefFirst: bool)
    requires vs != [] && AllDelimited(c, vs) && Flatten(chunks) == Pieces(c, vs) && |chunks| > 0 && Packed(chunks)
    ensures LoadFrom(c, Laid(chunks, nextRefFirst), |vs|, nextRefFirst) == Some(vs)
  {
    CutsMatch(c, vs, chunks);
    var cut := CutLike(vs, chunks);
    forall i | 0 <= i < |cut|
      ensures cut[i] != []
    {
      assert AllPieces(c, cut)[i] == chunks[i];
    }
    ChainLoads(c, cut, nextRefFirst);
  }

  /** Stores a list behind an 8-bit count and a flag. Longer lists, and lists no cut of which fits, are refused. */
  method StoreArray<T>(c: Codec<T>, vs: seq<T>, nextRefFirst: bool) returns (r: Option<Piece>)
    ensures r.Some? <==> |vs| <= 255 && (vs == [] || Packable(Pieces(c, vs)))
    ensures r.Some? ==> |r.value.bits| == 9 && Nat(r.value.bits[..8]) == |vs| && r.value.bits[8] == (vs != []) && |r.value.refs| == (if vs == [] then 0 else 1)
    ensures r.Some? && AllDelimited(c, vs) ==> Loaded(c, r.value, nextRefFirst) == Some((vs, NOTHING))
  {
    if |vs| > 255 {
      return None;
    }
    if vs == [] {
      EmptyLoads(c, nextRefFirst);
      CountForm(0, false);
      return Some(Piece(UintBits(0, 8) + [false], []));
    }
    var first, chunks := BuildArrayChunks(Pieces(c, vs), nextRefFirst);
    if first.None? {
      return None;
    }
    if AllDelimited(c, vs) {
      PackedLoads(c, vs, chunks, nextRefFirst);
      ListLoads(c, vs, first.value, nextRefFirst);
    }
    CountForm(|vs|, true);
    return Some(Piece(UintBits(|vs|, 8) + [true], [first.value]));
  }

  lemma CountForm(n: nat, some: bool)
    requires n <= 255
    ensures var b := UintBits(n, 8) + [some]; |b| == 9 && Nat(b[..8]) == n && b[8] == some
  {
    HeadReads(n);
    assert (UintBits(n, 8) + [some])[..8] == UintBits(n, 8);
  }

  /** What loading refuses: anything left in a cell, a next cell when all elements are there, and no next cell when some are
      missing. */
  lemma LoadRefuses<T>(c: Codec<T>, ref: Cell, n: nat, nextRefFirst: bool)
    requires Open(ref, nextRefFirst).Some?
    ensures var (next, p) := Open(ref, nextRefFirst).value;
            var loaded := LoadChunk(c, next.None?, p, n);
            && (loaded.None? ==> LoadFrom(c, ref, n, nextRefFirst).None?)
            && (loaded.Some? && !loaded.value.1.Empty() ==> LoadFrom(c, ref, n, nextRefFirst).None?)
            && (loaded.Some? && |loaded.value.0| >= n && next.Some? ==> LoadFrom(c, ref, n, nextRefFirst).None?)
            && (loaded.Some? && |loaded.value.0| < n && next.None? ==> LoadFrom(c, ref, n, nextRefFirst).None?)
  {
  }

  lemma EmptyLoads<T>(c: Codec<T>, nextRefFirst: bool)
    ensures Loaded(c, Piece(UintBits(0, 8) + [false], []), nextRefFirst) == Some(([], NOTHING))
  {
    var bits := UintBits(0, 8) + [false];
    HeadReads(0);
    assert bits[..8] == UintBits(0, 8) && bits[9..] == [];
  }

  lemma ListLoads<T>(c: Codec<T>, vs: seq<T>, first: Cell, nextRefFirst: bool)
    requires 0 < |vs| <= 255 && LoadFrom(c, first, |vs|, nextRefFirst) == Some(vs)
    ensures Loaded(c, Piece(UintBits(|vs|, 8) + [true], [first]), nextRefFirst) == Some((vs, NOTHING))
  {
    var bits := UintBits(|vs|, 8) + [true];
    HeadReads(|vs|);
    assert bits[..8] == UintBits(|vs|, 8) && bits[9..] == [];
    assert bits[8] && [first][1..] == [];
    assert Nat(bits[..8]) == |vs|;
  }

  lemma HeadReads(n: nat)
    requires n <= 255
    ensures Nat(UintBits(n, 8)) == n
  {
    assert Pow2(4) == 16;
    Pow2Double(4, 16);
    NatOfBits(n, 8);
  }

  /** What a stored list reads as, and what is left behind it. */
  function Loaded<T>(c: Codec<T>, p: Piece, nextRefFirst: bool): Option<(seq<T>, Piece)> {
    if |p.bits| < 9 then None
    else
      var (n, hasRef) := (Nat(p.bits[..8]), p.bits[8]);
      if n == 0 then
        if hasRef then None else Some(([], Piece(p.bits[9..], p.refs)))
      else if !hasRef || p.refs == [] then None
      else
        var vs :- LoadFrom(c, p.refs[0], n, nextRefFirst);
        Some((vs, Piece(p.bits[9..], p.refs[1..])))
  }

  /** Loading as it runs, cell by cell and element by element. */
  method LoadArray<T>(c: Codec<T>, p: Piece, nextRefFirst: bool) returns (r: Option<(seq<T>, Piece)>)
    ensures r == Loaded(c, p, nextRefFirst)
  {
    if |p.bits| < 9 {
      return None;
    }
    var n, hasRef := Nat(p.bits[..8]), p.bits[8];
    if n == 0 {
      return if hasRef then None else Some(([], Piece(p.bits[9..], p.refs)));
    }
    if !hasRef || p.refs == [] {
      return None;
    }
    var vs := LoadCells(c, p.refs[0], n, nextRefFirst);
    return if vs.None? then None else Some((vs.value, Piece(p.bits[9..], p.refs[1..])));
  }

  method LoadCells<T>(c: Codec<T>, start: Cell, n: nat, nextRefFirst: bool) returns (r: Option<seq<T>>)
    requires n > 0
    ensures r == LoadFrom(c, start, n, nextRefFirst)
  {
    hide LoadFrom, LoadChunk;
    var values: seq<T>, ref := [], start;
    PrefixedNothing(LoadFrom(c, start, n, nextRefFirst));
    while true
      invariant |values| < n
      invariant LoadFrom(c, start, n, nextRefFirst) == Prefixed(values, LoadFrom(c, ref, n - |values|, nextRefFirst))
      decreases ref
    {
      var left := n - |values|;
      var open := Open(ref, nextRefFirst);
      if open.None? {
        NotOpened(c, ref, left, nextRefFirst);
        return None;
      }
      LoadRefuses(c, ref, left, nextRefFirst);
      var (next, p) := open.value;
      var loaded := LoadElements(c, next.None?, p, left);
      if loaded.None? || !loaded.value.1.Empty() {
        return None;
      }
      var vs := loaded.value.0;
      if |vs| >= left {
        if next.None? {
          LoadLast(c, ref, left, nextRefFirst, p, vs, loaded.value.1);
        }
        return if next.Some? then None else Some(values + vs);
      }
      if next.None? {
        return None;
      }
      LoadStep(c, ref, left, nextRefFirst, next.value, p, vs, loaded.value.1);
      Regroup(values, vs, LoadFrom(c, next.value, left - |vs|, nextRefFirst));
      values, ref := values + vs, next.value;
    }
  }

  lemma NotOpened<T>(c: Codec<T>, ref: Cell, n: nat, nextRefFirst: bool)
    requires Open(ref, nextRefFirst).None?
    ensures LoadFrom(c, ref, n, nextRefFirst).None?
  {
  }

  lemma Regroup<T>(a: seq<T>, b: seq<T>, rest: Option<seq<T>>)
    ensures Prefixed(a, Prefixed(b, rest)) == Prefixed(a + b, rest)
  {
    if rest.Some? {
      assert a + (b + rest.value) == a + b + rest.value;
    }
  }

  ghost function After<T>(front: seq<T>, rest: Option<(seq<T>, Piece)>): Option<(seq<T>, Piece)> {
    match rest
    case None => None
    case Some((vs, p)) => Some((front + vs, p))
  }

  method LoadElements<T>(c: Codec<T>, last: bool, p: Piece, n: nat) returns (r: Option<(seq<T>, Piece)>)
    ensures r == LoadChunk(c, last, p, n)
  {
    var values: seq<T>, d := [], p;
    AfterNothing(LoadElems(c, p, n));
    while |values| < n && !d.Empty()
      invariant |values| <= n
      invariant LoadElems(c, p, n) == After(values, LoadElems(c, d, n - |values|))
    {
      var e := c.dec(d);
      if e.None? || (|e.value.1.bits| == |d.bits| && |e.value.1.refs| == |d.refs|) {
        return None;
      }
      AfterMore(values, e.value.0, LoadElems(c, e.value.1, n - |values| - 1));
      values, d := values + [e.value.0], e.value.1;
    }
    assert LoadElems(c, p, n) == Some((values, d)) by {
      assert values + [] == values;
    }
    if |values| < n && d.Empty() && last {
      ghost var loaded, at := values, d;
      while |values| < n
        invariant |loaded| <= |values| <= n
        invariant LoadChunk(c, last, p, n) == After(values, LoadEmpties(c, d, n - |values|))
      {
        var e := c.dec(d);
        if e.None? {
          return None;
        }
        AfterMore(values, e.value.0, LoadEmpties(c, e.value.1, n - |values| - 1));
        values, d := values + [e.value.0], e.value.1;
      }
      assert values + [] == values;
    }
    return Some((values, d));
  }

  lemma AfterNothing<T>(rest: Option<(seq<T>, Piece)>)
    ensures After([], rest) == rest
  {
    if rest.Some? {
      assert [] + rest.value.0 == rest.value.0;
    }
  }

  lemma AfterMore<T>(a: seq<T>, v: T, rest: Option<(seq<T>, Piece)>)
    ensures After(a + [v], rest) == After(a, After([v], rest))
  {
    if rest.Some? {
      assert a + [v] + rest.value.0 == a + ([v] + rest.value.0);
    }
  }
}
