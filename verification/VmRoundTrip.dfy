/** Whatever can be stored is read back unchanged: values, tuples of every length, continuations, control data, registers
    and stacks (tlb/stack.go, tlb/continuation.go). */
module VmRoundTrip {
  import opened Options
  import opened Powers
  import opened BitNumbers
  import opened VmCells
  import opened VmStack

  // The parser refuses stacks deeper than 1024; the writer does not.

  ghost predicate Shallow(v: Value)
    decreases v, 0
  {
    match v
    case ContV(k) => ShallowCont(k)
    case Tuple(vs) => ShallowAll(vs)
    case _ => true
  }

  ghost predicate ShallowAll(vs: seq<Value>)
    decreases vs, 0
  {
    forall v :: v in vs ==> Shallow(v)
  }

  ghost predicate ShallowCont(k: Cont)
    decreases k, 0
  {
    match k
    case Ordinary(data, _) => ShallowControl(data)
    case ArgExt(data, ext) => ShallowControl(data) && ShallowCont(ext)
    case Repeat(_, body, after) => ShallowCont(body) && ShallowCont(after)
    case Until(body, after) => ShallowCont(body) && ShallowCont(after)
    case Again(body) => ShallowCont(body)
    case While(_, cond, body, after) => ShallowCont(cond) && ShallowCont(body) && ShallowCont(after)
    case PushInt(_, next) => ShallowCont(next)
    case _ => true
  }

  ghost predicate ShallowControl(d: Control)
    decreases d, 0
  {
    && ShallowRegisters(d.save)
    && (d.stack.Values? ==> |d.stack.vs| <= MAX_STACK && ShallowAll(d.stack.vs))
  }

  ghost predicate ShallowRegisters(r: Registers)
    decreases r, 0
  {
    && (r.c0.Some? ==> ShallowCont(r.c0.value))
    && (r.c1.Some? ==> ShallowCont(r.c1.value))
    && (r.c2.Some? ==> ShallowCont(r.c2.value))
    && (r.c3.Some? ==> ShallowCont(r.c3.value))
    && (r.c7.Values? ==> ShallowAll(r.c7.vs))
  }

  lemma SmallPowers()
    ensures Pow2(0) == 1 && Pow2(1) == 2 && Pow2(2) == 4 && Pow2(3) == 8 && Pow2(4) == 16 && Pow2(5) == 32 && Pow2(6) == 64
    ensures Pow2(7) == 128 && Pow2(8) == 256 && Pow2(10) == 1024 && Pow2(13) == 8192 && Pow2(15) == 0x8000 && Pow2(16) == 0x1_0000
    ensures Pow2(24) == 0x100_0000
  {
    assert Pow2(9) == 512 && Pow2(11) == 2048 && Pow2(12) == 4096 && Pow2(14) == 0x4000;
    assert Pow2(18) == 4 * Pow2(16) && Pow2(20) == 4 * Pow2(18) && Pow2(22) == 4 * Pow2(20);
  }

  /** The tag of a value is what the parser looks at and skips. */
  lemma TagReads(tag: nat, rest: Chunk)
    requires tag < 8 && tag != 2
    ensures ParseValue(PutUint(tag, 8, rest)) == ParseTagged(tag, rest)
  {
    SmallPowers();
    PeekPut(tag, 8, rest, 8);
    TakePutUint(tag, 8, rest);
  }

  lemma RtNaN(rest: Chunk)
    ensures ParseValue(EncValue(NaN, rest).value) == Some((NaN, rest))
  {
    SmallPowers();
    PeekPut(0x02FF, 16, rest, 8);
    PeekPut(0x02FF, 16, rest, 16);
    TakePutUint(0x02FF, 16, rest);
  }

  /** The sign bit after the wide-integer prefix cannot complete the not-a-number mark. */
  lemma RtWideInt(n: int, rest: Chunk)
    requires FitsInt(n, 257)
    ensures ParseValue(PutUint(0x100, 15, PutInt(n, 257, rest))) == Some((Int(n), rest))
  {
    SmallPowers();
    var t := PutInt(n, 257, rest);
    var s := PutUint(0x100, 15, t);
    PeekPut(0x100, 15, t, 8);
    assert Peek(s, 8) == Some(2);
    TakePutUint(0x100, 15, t);
    TakePutInt(n, 257, rest);
    SixteenthBit(s, t);
  }

  lemma SixteenthBit(s: Chunk, t: Chunk)
    requires s == PutUint(0x100, 15, t) && |t.bits| > 0
    ensures Peek(s, 16).Some? && Peek(s, 16).value % 0x200 != 0xFF
  {
    SmallPowers();
    NatOfBits(0x100, 15);
    assert s.bits[..16][..15] == UintBits(0x100, 15);
  }

  lemma RtSlice(sl: SliceVal, rest: Chunk)
    requires EncSlice(sl, rest).Some?
    ensures ParseSlice(EncSlice(sl, rest).value) == Some((sl, rest))
  {
    SmallPowers();
    var t4 := PutUint(sl.endRef, 3, rest);
    var t3 := PutUint(sl.startRef, 3, t4);
    var t2 := PutUint(sl.end, 10, t3);
    var t1 := PutUint(sl.start, 10, t2);
    TakePutRef(sl.base, t1);
    TakePutUint(sl.start, 10, t2);
    TakePutUint(sl.end, 10, t3);
    TakePutUint(sl.startRef, 3, t4);
    TakePutUint(sl.endRef, 3, rest);
  }

  // One step of each round trip, given the round trips of the parts.

  ghost predicate ValueOk(v: Value, rest: Chunk) {
    EncValue(v, rest).Some? ==> ParseValue(EncValue(v, rest).value) == Some((v, rest))
  }

  ghost predicate CellOk(v: Value) {
    ValueCell(v).Some? ==> ParseValueCell(ValueCell(v).value) == Some(v)
  }

  ghost predicate HeadOk(vs: seq<Value>)
    requires vs != []
  {
    TupleHead(vs).Some? ==> ParseTupleHead(TupleHead(vs).value, |vs|) == Some(vs)
  }

  ghost predicate ContOk(k: Cont, rest: Chunk) {
    EncCont(k, rest).Some? ==> ParseCont(EncCont(k, rest).value) == Some((k, rest))
  }

  ghost predicate ContRefOk(k: Cont, rest: Chunk) {
    EncContRef(k, rest).Some? ==> ParseContRef(EncContRef(k, rest).value) == Some((k, rest))
  }

  ghost predicate ControlOk(d: Control, rest: Chunk) {
    EncControl(d, rest).Some? ==> ParseControl(EncControl(d, rest).value) == Some((d, rest))
  }

  ghost predicate RegistersOk(r: Registers, rest: Chunk) {
    EncRegisters(r, rest).Some? ==> ParseRegisters(EncRegisters(r, rest).value) == Some((r, rest))
  }

  ghost predicate StackOk(vs: seq<Value>, rest: Chunk) {
    EncStack(vs, rest).Some? ==> ParseStack(EncStack(vs, rest).value) == Some((vs, rest))
  }

  lemma RtTinyInt(n: int, rest: Chunk)
    requires FitsInt(n, 64)
    ensures ValueOk(Int(n), rest)
  {
    TagReads(0x01, PutInt(n, 64, rest));
    TakePutInt(n, 64, rest);
  }

  lemma RtNull(rest: Chunk)
    ensures ValueOk(Null, rest)
  {
    TagReads(0x00, rest);
  }

  lemma RtCellV(c: Cell, rest: Chunk)
    ensures ValueOk(CellV(c), rest)
  {
    if PutRef(c, rest).Some? {
      TagReads(0x03, PutRef(c, rest).value);
      TakePutRef(c, rest);
    }
  }

  lemma RtSliceV(sl: SliceVal, rest: Chunk)
    ensures ValueOk(SliceV(sl), rest)
  {
    if EncSlice(sl, rest).Some? {
      TagReads(0x04, EncSlice(sl, rest).value);
      RtSlice(sl, rest);
    }
  }

  lemma RtBuilderV(bits: seq<bool>, refs: seq<Cell>, rest: Chunk)
    ensures ValueOk(BuilderV(bits, refs), rest)
  {
    var c := EndCell(Chunk(bits, refs));
    if c.Some? && PutRef(c.value, rest).Some? {
      TagReads(0x05, PutRef(c.value, rest).value);
      TakePutRef(c.value, rest);
    }
  }

  lemma RtContV(k: Cont, rest: Chunk)
    requires ContOk(k, rest)
    ensures ValueOk(ContV(k), rest)
  {
    if EncCont(k, rest).Some? {
      TagReads(0x06, EncCont(k, rest).value);
    }
  }

  lemma {:induction false} RtValue(v: Value, rest: Chunk)
    requires Shallow(v)
    ensures ValueOk(v, rest)
    decreases v, 0
  {
    match v
    case Null => RtNull(rest);
    case Int(n) =>
      if FitsInt(n, 64) {
        RtTinyInt(n, rest);
      } else if FitsInt(n, 257) {
        RtWideInt(n, rest);
      }
    case NaN => RtNaN(rest);
    case CellV(c) => RtCellV(c, rest);
    case SliceV(sl) => RtSliceV(sl, rest);
    case BuilderV(bits, refs) => RtBuilderV(bits, refs, rest);
    case ContV(k) =>
      RtCont(k, rest);
      RtContV(k, rest);
    case Tuple(vs) => RtTuple(vs, rest);
  }

  lemma RtValueCell(v: Value)
    requires ValueOk(v, EMPTY)
    ensures CellOk(v)
  {
  }

  lemma RtPair(front: seq<Value>, v: Value)
    requires front != [] && HeadOk(front) && CellOk(v)
    ensures HeadOk(front + [v])
  {
    var vs := front + [v];
    assert vs[..|front|] == front && vs[|front|] == v;
    if TupleHead(vs).Some? {
      var last, head := ValueCell(v).value, TupleHead(front).value;
      var t := PutRef(last, EMPTY).value;
      TakePutRef(head, t);
      TakePutRef(last, EMPTY);
    }
  }

  /** The chain of pairs built by the writer's swapping loop unwinds to the same members. */
  lemma {:induction false} RtTupleHead(vs: seq<Value>)
    requires vs != [] && ShallowAll(vs)
    ensures HeadOk(vs)
    decreases vs, 0
  {
    var n := |vs|;
    assert vs[n - 1] in vs;
    RtValue(vs[n - 1], EMPTY);
    RtValueCell(vs[n - 1]);
    if n > 1 {
      var front := vs[..n - 1];
      assert front + [vs[n - 1]] == vs;
      RtTupleHead(front);
      RtPair(front, vs[n - 1]);
    } else {
      assert vs == [vs[0]];
    }
  }

  lemma TupleReads(n: nat, rest: Chunk)
    requires n < 0x1_0000
    ensures ParseValue(PutUint(0x07, 8, PutUint(n, 16, rest))) ==
      (var (vs, s) :- ParseTuple(n, rest); Some((Tuple(vs), s)))
  {
    SmallPowers();
    TagReads(0x07, PutUint(n, 16, rest));
    TakePutUint(n, 16, rest);
  }

  lemma RtShortTuple(vs: seq<Value>, rest: Chunk)
    requires |vs| <= 1 && (vs != [] ==> CellOk(vs[0]))
    ensures ValueOk(Tuple(vs), rest)
  {
    if vs == [] {
      TupleReads(0, rest);
    } else if EncTuple(vs, rest).Some? {
      var last := ValueCell(vs[0]).value;
      var t := PutRef(last, rest).value;
      TakePutRef(last, rest);
      TupleReads(1, t);
      assert vs == [vs[0]];
    }
  }

  lemma RtLongTuple(front: seq<Value>, v: Value, rest: Chunk)
    requires front != [] && HeadOk(front) && CellOk(v)
    ensures ValueOk(Tuple(front + [v]), rest)
  {
    var vs := front + [v];
    var n := |vs|;
    assert vs[..n - 1] == front && vs[n - 1] == v;
    if EncTuple(vs, rest).Some? {
      var last, head := ValueCell(v).value, TupleHead(front).value;
      var t := PutRef(last, rest).value;
      var t' := PutRef(head, t).value;
      TwoCellsRead(front, v, last, head, t, t', rest);
      TupleReads(n, t');
    }
  }

  /** The two cells of a tuple of two or more. */
  lemma TwoCellsRead(front: seq<Value>, v: Value, last: Cell, head: Cell, t: Chunk, t': Chunk, rest: Chunk)
    requires front != [] && PutRef(last, rest) == Some(t) && PutRef(head, t) == Some(t')
    requires ParseValueCell(last) == Some(v) && ParseTupleHead(head, |front|) == Some(front)
    ensures ParseTuple(|front| + 1, t') == Some((front + [v], rest))
  {
    TakePutRef(last, rest);
    TakePutRef(head, t);
  }

  lemma {:induction false} RtTuple(vs: seq<Value>, rest: Chunk)
    requires ShallowAll(vs)
    ensures ValueOk(Tuple(vs), rest)
    decreases vs, 1
  {
    var n := |vs|;
    if n > 0 {
      assert vs[n - 1] in vs;
      RtValue(vs[n - 1], EMPTY);
      RtValueCell(vs[n - 1]);
    }
    if n > 1 {
      var front := vs[..n - 1];
      assert front + [vs[n - 1]] == vs;
      RtTupleHead(front);
      RtLongTuple(front, vs[n - 1], rest);
    } else {
      RtShortTuple(vs, rest);
    }
  }

  /** A tag read back as a whole, together with the shorter looks that lead to it. */
  lemma LooksAt(tag: nat, w: nat, rest: Chunk)
    requires w in {2, 4, 5, 6} && tag < Pow2(w)
    ensures Peek(PutUint(tag, w, rest), 2) == Some(tag / Pow2(w - 2))
    ensures w >= 4 ==> Peek(PutUint(tag, w, rest), 4) == Some(tag / Pow2(w - 4))
    ensures Peek(PutUint(tag, w, rest), w) == Some(tag)
    ensures PutUint(tag, w, rest).bits[w..] == rest.bits
  {
    PeekPut(tag, w, rest, 2);
    if w >= 4 {
      PeekPut(tag, w, rest, 4);
    }
    PeekPut(tag, w, rest, w);
    assert Pow2(0) == 1;
  }

  /** The shorter looks at a tag, as numbers. */
  lemma LooksLike(tag: nat, w: nat, rest: Chunk, two: nat, four: nat)
    requires w in {2, 4, 5, 6} && tag < Pow2(w) && two == tag / Pow2(w - 2) && (w >= 4 ==> four == tag / Pow2(w - 4))
    requires w == 2 ==> two < 2
    requires w == 4 ==> (two == 2 && four in {8, 9}) || (two == 3 && four == 0x0F)
    requires w == 5 ==> two == 2 && four == 0x0A && tag == 0x14
    requires w == 6 ==> two == 3 && four == 0x0C && 0x30 <= tag <= 0x33
    ensures ContTagOf(PutUint(tag, w, rest)) == Some((tag, w)) && PutUint(tag, w, rest).bits[w..] == rest.bits
  {
    LooksAt(tag, w, rest);
    assert w == 4 ==> Pow2(0) == 1 && four == tag;
    assert w == 2 ==> Pow2(0) == 1 && two == tag;
  }

  lemma ShortTagReads(tag: nat, rest: Chunk)
    requires tag < 2
    ensures ContTagOf(PutUint(tag, 2, rest)) == Some((tag, 2)) && PutUint(tag, 2, rest).bits[2..] == rest.bits
  {
    assert Pow2(2) == 4 && Pow2(0) == 1;
    LooksLike(tag, 2, rest, tag, 0);
  }

  lemma FourBitTagReads(tag: nat, rest: Chunk)
    requires tag in {8, 9, 0x0F}
    ensures ContTagOf(PutUint(tag, 4, rest)) == Some((tag, 4)) && PutUint(tag, 4, rest).bits[4..] == rest.bits
  {
    assert Pow2(4) == 16 && Pow2(2) == 4 && Pow2(0) == 1;
    LooksLike(tag, 4, rest, tag / 4, tag);
  }

  lemma LongTagReads(tag: nat, w: nat, rest: Chunk)
    requires (w == 5 && tag == 0x14) || (w == 6 && 0x30 <= tag <= 0x33)
    ensures ContTagOf(PutUint(tag, w, rest)) == Some((tag, w)) && PutUint(tag, w, rest).bits[w..] == rest.bits
  {
    assert Pow2(6) == 64 && Pow2(5) == 32 && Pow2(4) == 16 && Pow2(3) == 8 && Pow2(2) == 4 && Pow2(1) == 2;
    LooksLike(tag, w, rest, tag / Pow2(w - 2), tag / Pow2(w - 4));
  }

  /** The tags of continuations are a prefix code: looking ahead finds exactly the tag that was written. */
  lemma ContTagReads(k: Cont, rest: Chunk)
    ensures ContTagOf(PutUint(ContTag(k), ContTagWidth(k), rest)) == Some((ContTag(k), ContTagWidth(k)))
    ensures PutUint(ContTag(k), ContTagWidth(k), rest).bits[ContTagWidth(k)..] == rest.bits
  {
    if ContTagWidth(k) == 2 {
      ShortTagReads(ContTag(k), rest);
    } else if ContTagWidth(k) == 4 {
      FourBitTagReads(ContTag(k), rest);
    } else {
      LongTagReads(ContTag(k), ContTagWidth(k), rest);
    }
  }

  ghost predicate BodyOk(k: Cont, rest: Chunk) {
    EncContBody(k, rest).Some? ==> ParseContBody(ContTag(k), EncContBody(k, rest).value) == Some((k, rest))
  }

  lemma RtTagged(k: Cont, rest: Chunk)
    requires BodyOk(k, rest)
    ensures ContOk(k, rest)
  {
    if EncContBody(k, rest).Some? {
      ContTagReads(k, EncContBody(k, rest).value);
    }
  }

  lemma RtContCell(k: Cont, rest: Chunk)
    requires ContOk(k, EMPTY)
    ensures ContRefOk(k, rest)
  {
    if EncContRef(k, rest).Some? {
      TakePutRef(EndCell(EncCont(k, EMPTY).value).value, rest);
    }
  }

  lemma {:induction false} RtContRef(k: Cont, rest: Chunk)
    requires ShallowCont(k)
    ensures ContRefOk(k, rest)
    decreases k, 3
  {
    RtCont(k, EMPTY);
    RtContCell(k, rest);
  }

  lemma {:induction false} RtCont(k: Cont, rest: Chunk)
    requires ShallowCont(k)
    ensures ContOk(k, rest)
    decreases k, 2
  {
    if k.Ordinary? || k.ArgExt? {
      RtWithData(k, rest);
    } else if k.Quit? {
      RtQuit(k.exitCode, rest);
    } else if k.Repeat? || k.Until? || k.While? {
      RtLoop(k, rest);
    } else if k.Again? {
      RtContRef(k.body, rest);
    } else if k.PushInt? {
      RtContRef(k.next, rest);
      RtPushInt(k.n, k.next, rest);
    }
    RtTagged(k, rest);
  }

  lemma RtQuit(code: int, rest: Chunk)
    ensures BodyOk(Quit(code), rest)
  {
    if FitsInt(code, 32) {
      TakePutInt(code, 32, rest);
    }
  }

  lemma PushIntReads(n: int, next: Cont, t: Chunk, rest: Chunk)
    requires FitsInt(n, 32) && ParseContRef(t) == Some((next, rest))
    ensures ParsePushInt(PutInt(n, 32, t)) == Some((PushInt(n, next), rest))
  {
    TakePutInt(n, 32, t);
  }

  lemma RtPushInt(n: int, next: Cont, rest: Chunk)
    requires ContRefOk(next, rest)
    ensures BodyOk(PushInt(n, next), rest)
  {
    if FitsInt(n, 32) && EncContRef(next, rest).Some? {
      PushIntReads(n, next, EncContRef(next, rest).value, rest);
    }
  }

  lemma {:induction false} RtWithData(k: Cont, rest: Chunk)
    requires (k.Ordinary? || k.ArgExt?) && ShallowCont(k)
    ensures BodyOk(k, rest)
    decreases k, 1
  {
    if k.Ordinary? {
      if EncSlice(k.code, rest).Some? {
        RtSlice(k.code, rest);
        RtControl(k.data, EncSlice(k.code, rest).value);
      }
    } else {
      RtContRef(k.ext, rest);
      if EncContRef(k.ext, rest).Some? {
        RtControl(k.data, EncContRef(k.ext, rest).value);
      }
    }
  }

  function EncTwoRefs(body: Cont, after: Cont, rest: Chunk): Option<Chunk> {
    var t :- EncContRef(after, rest);
    EncContRef(body, t)
  }

  ghost predicate TwoRefsOk(body: Cont, after: Cont, rest: Chunk) {
    EncTwoRefs(body, after, rest).Some? ==> ParseTwoRefs(EncTwoRefs(body, after, rest).value) == Some((body, after, rest))
  }

  lemma TwoRefs(body: Cont, after: Cont, rest: Chunk)
    requires ContRefOk(after, rest) && (EncContRef(after, rest).Some? ==> ContRefOk(body, EncContRef(after, rest).value))
    ensures TwoRefsOk(body, after, rest)
  {
  }

  lemma RepeatReads(count: nat, body: Cont, after: Cont, t: Chunk, rest: Chunk)
    requires count < Pow2(63) && ParseTwoRefs(t) == Some((body, after, rest))
    ensures ParseRepeat(PutUint(count, 63, t)) == Some((Repeat(count, body, after), rest))
  {
    TakePutUint(count, 63, t);
  }

  lemma RepeatBody(count: int, body: Cont, after: Cont, rest: Chunk)
    requires TwoRefsOk(body, after, rest)
    ensures BodyOk(Repeat(count, body, after), rest)
  {
    if 0 <= count < Pow2(63) && EncTwoRefs(body, after, rest).Some? {
      RepeatReads(count, body, after, EncTwoRefs(body, after, rest).value, rest);
    }
  }

  lemma UntilBody(body: Cont, after: Cont, rest: Chunk)
    requires TwoRefsOk(body, after, rest)
    ensures BodyOk(Until(body, after), rest)
  {
  }

  lemma WhileBody(checkCond: bool, cond: Cont, body: Cont, after: Cont, rest: Chunk)
    requires TwoRefsOk(body, after, rest)
    requires EncTwoRefs(body, after, rest).Some? ==> ContRefOk(cond, EncTwoRefs(body, after, rest).value)
    ensures BodyOk(While(checkCond, cond, body, after), rest)
  {
  }

  lemma {:induction false} RtLoop(k: Cont, rest: Chunk)
    requires (k.Repeat? || k.Until? || k.While?) && ShallowCont(k)
    ensures BodyOk(k, rest)
    decreases k, 1
  {
    RtContRef(k.after, rest);
    if EncContRef(k.after, rest).Some? {
      RtContRef(k.body, EncContRef(k.after, rest).value);
    }
    TwoRefs(k.body, k.after, rest);
    if k.Repeat? {
      RepeatBody(k.count, k.body, k.after, rest);
    } else if k.Until? {
      UntilBody(k.body, k.after, rest);
    } else {
      if EncTwoRefs(k.body, k.after, rest).Some? {
        RtContRef(k.cond, EncTwoRefs(k.body, k.after, rest).value);
      }
      WhileBody(k.checkCond, k.cond, k.body, k.after, rest);
    }
  }

  lemma RtArgs(n: int, rest: Chunk)
    requires EncArgs(n, rest).Some?
    ensures ParseArgs(EncArgs(n, rest).value) == Some((n, rest))
  {
    SmallPowers();
    if n >= 0 {
      TakePutBit(true, PutUint(n, 13, rest));
      TakePutUint(n, 13, rest);
    } else {
      TakePutBit(false, rest);
    }
  }

  lemma RtCp(cp: int, rest: Chunk)
    requires EncCp(cp, rest).Some?
    ensures ParseCp(EncCp(cp, rest).value) == Some((cp, rest))
  {
    if cp == -1 {
      TakePutBit(false, rest);
    } else {
      TakePutBit(true, PutInt(cp, 16, rest));
      TakePutInt(cp, 16, rest);
    }
  }

  ghost predicate MaybeStackOk(vs: Values, rest: Chunk) {
    EncMaybeStack(vs, rest).Some? ==> ParseMaybeStack(EncMaybeStack(vs, rest).value) == Some((vs, rest))
  }

  lemma RtMaybeStack(vs: Values, rest: Chunk)
    requires vs.Values? ==> StackOk(vs.vs, rest)
    ensures MaybeStackOk(vs, rest)
  {
    if vs.NoValues? {
      TakePutBit(false, rest);
    } else if EncStack(vs.vs, rest).Some? {
      TakePutBit(true, EncStack(vs.vs, rest).value);
    }
  }

  lemma {:induction false} RtControl(d: Control, rest: Chunk)
    requires ShallowControl(d)
    ensures ControlOk(d, rest)
    decreases d, 0
  {
    if EncControl(d, rest).Some? {
      var cp := EncCp(d.cp, rest).value;
      RtCp(d.cp, rest);
      var regs := EncRegisters(d.save, cp).value;
      RtRegisters(d.save, cp);
      if d.stack.Values? {
        RtStack(d.stack.vs, regs);
      }
      RtMaybeStack(d.stack, regs);
      RtArgs(d.numArgs, EncMaybeStack(d.stack, regs).value);
    }
  }

  lemma RtNodeStep(front: seq<Value>, v: Value, rest: Chunk)
    requires NodeOk(front, EMPTY) && ValueOk(v, rest)
    ensures NodeOk(front + [v], rest)
  {
    var vs := front + [v];
    assert vs[..|front|] == front && vs[|front|] == v;
    if EncNode(vs, rest).Some? {
      TakePutRef(EndCell(EncNode(front, EMPTY).value).value, EncValue(v, rest).value);
    }
  }

  ghost predicate NodeOk(vs: seq<Value>, rest: Chunk) {
    EncNode(vs, rest).Some? ==> ParseNode(EncNode(vs, rest).value, |vs|) == Some((vs, rest))
  }

  lemma {:induction false} RtNode(vs: seq<Value>, rest: Chunk)
    requires ShallowAll(vs)
    ensures NodeOk(vs, rest)
    decreases vs, 0
  {
    var n := |vs|;
    if n > 0 {
      var front := vs[..n - 1];
      assert vs[n - 1] in vs && front + [vs[n - 1]] == vs;
      RtNode(front, EMPTY);
      RtValue(vs[n - 1], rest);
      RtNodeStep(front, vs[n - 1], rest);
    }
  }

  /** A stored stack of up to 1024 values is read back, value by value, in the same order. */
  lemma {:induction false} RtStack(vs: seq<Value>, rest: Chunk)
    requires |vs| <= MAX_STACK && ShallowAll(vs)
    ensures StackOk(vs, rest)
    decreases vs, 1
  {
    if EncStack(vs, rest).Some? {
      SmallPowers();
      RtNode(vs, rest);
      TakePutUint(|vs|, 24, EncNode(vs, rest).value);
    }
  }

  /** The registers below index `k`. */
  function Below(r: Registers, k: nat): Registers {
    Registers(if k > 0 then r.c0 else None, if k > 1 then r.c1 else None, if k > 2 then r.c2 else None,
              if k > 3 then r.c3 else None, if k > 4 then r.c4 else None, if k > 5 then r.c5 else None,
              if k > 7 then r.c7 else NoValues)
  }

  /** The entry of register `k`, if any, sets that register and no other. */
  ghost predicate EntryOk(r: Registers, k: nat, es: seq<Entry>) {
    if es == [] then Below(r, k + 1) == Below(r, k)
    else
      && |es| == 1
      && ParseValue(Chunk(es[0].bits, es[0].refs)).Some?
      && ParseValue(Chunk(es[0].bits, es[0].refs)).value.1 == EMPTY
      && SetRegister(Below(r, k), es[0].key, ParseValue(Chunk(es[0].bits, es[0].refs)).value.0) == Some(Below(r, k + 1))
  }

  /** The value a register holds, if it is set. */
  function RegValue(r: Registers, k: nat): Option<Value> {
    if ContAt(r, k).Some? then Some(ContV(ContAt(r, k).value))
    else if CellAt(r, k).Some? then Some(CellV(CellAt(r, k).value))
    else if k == 7 && r.c7.Values? then Some(Tuple(r.c7.vs))
    else None
  }

  lemma RegistersDiffer(r: Registers, k: nat)
    requires k < 8
    ensures if RegValue(r, k).None? then Below(r, k + 1) == Below(r, k)
            else SetRegister(Below(r, k), k, RegValue(r, k).value) == Some(Below(r, k + 1))
  {
  }

  lemma EntryIsValue(r: Registers, k: nat)
    requires k < 8 && RegEntry(r, k).Some?
    ensures if RegValue(r, k).None? then RegEntry(r, k).value == []
            else
              && EncValue(RegValue(r, k).value, EMPTY).Some?
              && var c := EncValue(RegValue(r, k).value, EMPTY).value; RegEntry(r, k).value == [Entry(k, c.bits, c.refs)]
  {
  }

  lemma RtEntryOf(r: Registers, k: nat)
    requires k < 8 && RegEntry(r, k).Some?
    requires RegValue(r, k).Some? ==> ValueOk(RegValue(r, k).value, EMPTY)
    ensures EntryOk(r, k, RegEntry(r, k).value)
  {
    EntryIsValue(r, k);
    RegistersDiffer(r, k);
    if RegValue(r, k).Some? {
      var c := EncValue(RegValue(r, k).value, EMPTY).value;
      assert Chunk(c.bits, c.refs) == c;
    }
  }

  lemma {:induction false} RtEntry(r: Registers, k: nat)
    requires k < 8 && RegEntry(r, k).Some? && ShallowRegisters(r)
    ensures EntryOk(r, k, RegEntry(r, k).value)
    decreases r, 0, 0
  {
    if ContAt(r, k).Some? {
      RtCont(ContAt(r, k).value, EMPTY);
      RtContV(ContAt(r, k).value, EMPTY);
    } else if CellAt(r, k).Some? {
      RtCellV(CellAt(r, k).value, EMPTY);
    } else if k == 7 && r.c7.Values? {
      RtTuple(r.c7.vs, EMPTY);
    }
    RtEntryOf(r, k);
  }

  lemma RtEntriesStep(r: Registers, k: nat)
    requires k < 8 && RegEntries(r, k).Some? && EntryOk(r, k, RegEntry(r, k).value)
    requires ParseEntries(RegEntries(r, k + 1).value, Below(r, k + 1)) == Some(r)
    ensures ParseEntries(RegEntries(r, k).value, Below(r, k)) == Some(r)
  {
    var e, es := RegEntry(r, k).value, RegEntries(r, k + 1).value;
    if e == [] {
      assert e + es == es;
    } else {
      assert (e + es)[0] == e[0] && (e + es)[1..] == es;
    }
  }

  lemma {:induction false} RtEntries(r: Registers, k: nat)
    requires k <= 8 && RegEntries(r, k).Some? && ShallowRegisters(r)
    ensures ParseEntries(RegEntries(r, k).value, Below(r, k)) == Some(r)
    decreases r, 0, 8 - k
  {
    if k < 8 {
      RtEntry(r, k);
      RtEntries(r, k + 1);
      RtEntriesStep(r, k);
    }
  }

  lemma {:induction false} RtRegisters(r: Registers, rest: Chunk)
    requires ShallowRegisters(r)
    ensures RegistersOk(r, rest)
    decreases r, 1
  {
    if EncRegisters(r, rest).Some? {
      RtEntries(r, 0);
      var es := RegEntries(r, 0).value;
      if es == [] {
        TakePutBit(false, rest);
      } else {
        TakePutRef(DictRoot(es), rest);
        TakePutBit(true, PutRef(DictRoot(es), rest).value);
      }
    }
  }
}
