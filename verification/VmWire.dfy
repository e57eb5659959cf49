/** The TL-B forms of VM values, continuations and control data, item by item in the order they are read
    (tlb/stack.go, tlb/continuation.go), and what the reader refuses. */
module VmWire {
  import opened Options
  import opened Powers
  import opened VmCells
  import opened VmStack

  /** `s` starts with the `w`-bit number `n`, and `t` is left behind it. */
  ghost predicate Number(s: Chunk, w: nat, n: nat, t: Chunk) {
    n < Pow2(w) && TakeUint(s, w) == Some((n, t))
  }

  ghost predicate Signed(s: Chunk, w: nat, n: int, t: Chunk)
    requires w > 0
  {
    TakeInt(s, w) == Some((n, t))
  }

  ghost predicate Flag(s: Chunk, b: bool, t: Chunk) {
    TakeBit(s) == Some((b, t))
  }

  ghost predicate Ref(s: Chunk, c: Cell, t: Chunk) {
    TakeRef(s) == Some((c, t))
  }

  lemma NumberPut(n: nat, w: nat, t: Chunk)
    requires n < Pow2(w)
    ensures Number(PutUint(n, w, t), w, n, t)
  {
    TakePutUint(n, w, t);
  }

  lemma SignedPut(n: int, w: nat, t: Chunk)
    requires w > 0 && FitsInt(n, w)
    ensures Signed(PutInt(n, w, t), w, n, t)
  {
    TakePutInt(n, w, t);
  }

  lemma RefPut(c: Cell, t: Chunk)
    requires PutRef(c, t).Some?
    ensures Ref(PutRef(c, t).value, c, t)
  {
    TakePutRef(c, t);
  }

  lemma FlagPut(b: bool, t: Chunk)
    ensures Flag(PutBit(b, t), b, t)
  {
    TakePutBit(b, t);
  }

  lemma TagsFit()
    ensures Pow2(2) == 4 && Pow2(4) == 16 && Pow2(5) == 32 && Pow2(6) == 64 && Pow2(8) == 0x100
    ensures Pow2(15) == 0x8000 && Pow2(16) == 0x1_0000
  {
    assert Pow2(2) == 4;
    Pow2Double(2, 4);
    Pow2Double(4, 16);
    Pow2Double(8, 0x100);
  }

  // ---- Values ----

  /** A slice: its cell, the bit window in ten bits each, the reference window in three. */
  ghost predicate SliceForm(s: Chunk, v: SliceVal, rest: Chunk) {
    exists a, b, c, d ::
      Ref(s, v.base, a) && Number(a, 10, v.start, b) && Number(b, 10, v.end, c) && Number(c, 3, v.startRef, d) && Number(d, 3, v.endRef, rest)
  }

  lemma SliceFormed(v: SliceVal, rest: Chunk)
    requires EncSlice(v, rest).Some?
    ensures SliceForm(EncSlice(v, rest).value, v, rest)
  {
    assert Pow2(3) == 8;
    assert Pow2(5) == 32;
    Pow2Double(5, 32);
    var d := PutUint(v.endRef, 3, rest);
    var c := PutUint(v.startRef, 3, d);
    var b := PutUint(v.end, 10, c);
    var a := PutUint(v.start, 10, b);
    NumberPut(v.endRef, 3, rest);
    NumberPut(v.startRef, 3, d);
    NumberPut(v.end, 10, c);
    NumberPut(v.start, 10, b);
    RefPut(v.base, a);
  }

  /** The tag of each kind of value. A number that fits 64 bits has the short form. */
  function ValueTag(v: Value): (nat, nat) {
    match v
    case Null => (0x00, 8)
    case Int(n) => if -0x8000_0000_0000_0000 <= n < 0x8000_0000_0000_0000 then (0x01, 8) else (0x100, 15)
    case NaN => (0x02FF, 16)
    case CellV(_) => (0x03, 8)
    case SliceV(_) => (0x04, 8)
    case BuilderV(_, _) => (0x05, 8)
    case ContV(_) => (0x06, 8)
    case Tuple(_) => (0x07, 8)
  }

  /** What follows the tag. */
  ghost predicate ValueBody(v: Value, t: Chunk, rest: Chunk) {
    match v
    case Null => t == rest
    case Int(n) => Signed(t, if ValueTag(v).0 == 0x01 then 64 else 257, n, rest)
    case NaN => t == rest
    case CellV(c) => Ref(t, c, rest)
    case SliceV(s) => SliceForm(t, s, rest)
    case BuilderV(bits, refs) => Ref(t, Cell(false, bits, refs), rest)
    case ContV(k) => EncCont(k, rest) == Some(t)
    case Tuple(vs) => exists u :: Number(t, 16, |vs|, u) && MembersForm(vs, u, rest)
  }

  /** No member, one in a cell of its own, or the members before the last in one reference and the last in another. */
  ghost predicate MembersForm(vs: seq<Value>, t: Chunk, rest: Chunk) {
    if vs == [] then t == rest
    else
      ValueCell(vs[|vs| - 1]).Some? &&
      var last := ValueCell(vs[|vs| - 1]).value;
      if |vs| == 1 then Ref(t, last, rest)
      else exists head, u :: Some(head) == TupleHead(vs[..|vs| - 1]) && Ref(t, head, u) && Ref(u, last, rest)
  }

  lemma WordsAre()
    ensures Pow2(63) == 0x8000_0000_0000_0000
  {
    TagsFit();
    Pow2Double(16, 0x1_0000);
    Pow2Add(32, 31);
    Pow2Add(16, 15);
  }

  /** Every stored value is its tag and its body. */
  lemma ValueForm(v: Value, rest: Chunk) returns (t: Chunk)
    requires EncValue(v, rest).Some?
    ensures Number(EncValue(v, rest).value, ValueTag(v).1, ValueTag(v).0, t) && ValueBody(v, t, rest)
  {
    TagsFit();
    match v
    case Tuple(vs) => t := TupleForm(vs, rest);
    case Int(n) => t := IntForm(n, rest);
    case SliceV(s) =>
      t := EncSlice(s, rest).value;
      NumberPut(0x04, 8, t);
      SliceFormed(s, rest);
    case _ => t := PlainForm(v, rest);
  }

  lemma PlainForm(v: Value, rest: Chunk) returns (t: Chunk)
    requires EncValue(v, rest).Some? && !v.Tuple? && !v.Int? && !v.SliceV?
    ensures Number(EncValue(v, rest).value, ValueTag(v).1, ValueTag(v).0, t) && ValueBody(v, t, rest)
  {
    TagsFit();
    t := rest;
    if v.CellV? {
      t := PutRef(v.cell, rest).value;
      RefPut(v.cell, rest);
    } else if v.BuilderV? {
      t := PutRef(Cell(false, v.bits, v.refs), rest).value;
      RefPut(Cell(false, v.bits, v.refs), rest);
    } else if v.ContV? {
      t := EncCont(v.cont, rest).value;
    }
    NumberPut(ValueTag(v).0, ValueTag(v).1, t);
  }

  lemma IntForm(n: int, rest: Chunk) returns (t: Chunk)
    requires EncValue(Int(n), rest).Some?
    ensures Number(EncValue(Int(n), rest).value, ValueTag(Int(n)).1, ValueTag(Int(n)).0, t)
    ensures ValueBody(Int(n), t, rest)
  {
    WordsAre();
    TagsFit();
    var w := if FitsInt(n, 64) then 64 else 257;
    t := PutInt(n, w, rest);
    SignedPut(n, w, rest);
    NumberPut(ValueTag(Int(n)).0, ValueTag(Int(n)).1, t);
  }

  lemma TupleForm(vs: seq<Value>, rest: Chunk) returns (t: Chunk)
    requires EncTuple(vs, rest).Some?
    ensures Number(EncTuple(vs, rest).value, 8, 0x07, t) && ValueBody(Tuple(vs), t, rest)
  {
    TagsFit();
    var u := rest;
    if vs != [] {
      var last := ValueCell(vs[|vs| - 1]).value;
      u := PutRef(last, rest).value;
      RefPut(last, rest);
      if |vs| > 1 {
        var head, before := TupleHead(vs[..|vs| - 1]).value, u;
        u := PutRef(head, before).value;
        RefPut(head, before);
      }
    }
    t := PutUint(|vs|, 16, u);
    NumberPut(|vs|, 16, u);
    NumberPut(0x07, 8, t);
    assert MembersForm(vs, u, rest);
  }

  // ---- Continuations ----

  /** The tag of each continuation: its number and its width. */
  lemma ContTags(k: Cont)
    ensures k.Ordinary? ==> (ContTag(k), ContTagWidth(k)) == (0, 2)
    ensures k.ArgExt? ==> (ContTag(k), ContTagWidth(k)) == (1, 2)
    ensures k.Quit? ==> (ContTag(k), ContTagWidth(k)) == (8, 4)
    ensures k.ExcQuit? ==> (ContTag(k), ContTagWidth(k)) == (9, 4)
    ensures k.Repeat? ==> (ContTag(k), ContTagWidth(k)) == (0x14, 5)
    ensures k.Until? ==> (ContTag(k), ContTagWidth(k)) == (0x30, 6)
    ensures k.Again? ==> (ContTag(k), ContTagWidth(k)) == (0x31, 6)
    ensures k.While? ==> (ContTag(k), ContTagWidth(k)) == (if k.checkCond then 0x32 else 0x33, 6)
    ensures k.PushInt? ==> (ContTag(k), ContTagWidth(k)) == (0xF, 4)
  {
  }

  /** A continuation in a cell of its own. */
  ghost predicate ContRef(s: Chunk, k: Cont, t: Chunk) {
    exists c :: EncCont(k, EMPTY) == Some(c) && Ref(s, Cell(false, c.bits, c.refs), t)
  }

  lemma ContRefPut(k: Cont, rest: Chunk)
    requires EncContRef(k, rest).Some?
    ensures ContRef(EncContRef(k, rest).value, k, rest)
  {
    var c := EncCont(k, EMPTY).value;
    RefPut(Cell(false, c.bits, c.refs), rest);
  }

  ghost predicate TwoRefs(s: Chunk, a: Cont, b: Cont, rest: Chunk) {
    exists t :: ContRef(s, a, t) && ContRef(t, b, rest)
  }

  /** What follows the tag: the control data before the code or the extended continuation, numbers before references, the
      condition before the body and the body before what comes after it. */
  ghost predicate ContBody(k: Cont, s: Chunk, rest: Chunk) {
    match k
    case Ordinary(data, code) => exists t :: EncControl(data, t) == Some(s) && SliceForm(t, code, rest)
    case ArgExt(data, ext) => exists t :: EncControl(data, t) == Some(s) && ContRef(t, ext, rest)
    case Quit(code) => Signed(s, 32, code, rest)
    case ExcQuit => s == rest
    case Repeat(count, body, after) => count >= 0 && exists t :: Number(s, 63, count, t) && TwoRefs(t, body, after, rest)
    case Until(body, after) => TwoRefs(s, body, after, rest)
    case Again(body) => ContRef(s, body, rest)
    case While(_, cond, body, after) => exists t :: ContRef(s, cond, t) && TwoRefs(t, body, after, rest)
    case PushInt(n, next) => exists t :: Signed(s, 32, n, t) && ContRef(t, next, rest)
  }

  lemma ContForm(k: Cont, rest: Chunk) returns (t: Chunk)
    requires EncCont(k, rest).Some?
    ensures Number(EncCont(k, rest).value, ContTagWidth(k), ContTag(k), t) && ContBody(k, t, rest)
  {
    TagsFit();
    t := EncContBody(k, rest).value;
    NumberPut(ContTag(k), ContTagWidth(k), t);
    if k.Ordinary? || k.ArgExt? || k.Quit? || k.ExcQuit? || k.PushInt? {
      PlainContForm(k, rest);
    } else {
      LoopContForm(k, rest);
    }
  }

  lemma PlainContForm(k: Cont, rest: Chunk)
    requires EncContBody(k, rest).Some? && (k.Ordinary? || k.ArgExt? || k.Quit? || k.ExcQuit? || k.PushInt?)
    ensures ContBody(k, EncContBody(k, rest).value, rest)
  {
    match k
    case Ordinary(data, code) => SliceFormed(code, rest);
    case ArgExt(data, ext) => ContRefPut(ext, rest);
    case Quit(code) => SignedPut(code, 32, rest);
    case PushInt(n, next) =>
      ContRefPut(next, rest);
      SignedPut(n, 32, EncContRef(next, rest).value);
    case ExcQuit =>
  }

  lemma LoopContForm(k: Cont, rest: Chunk)
    requires EncContBody(k, rest).Some? && (k.Repeat? || k.Until? || k.Again? || k.While?)
    ensures ContBody(k, EncContBody(k, rest).value, rest)
  {
    if k.Again? {
      ContRefPut(k.body, rest);
    } else {
      ContRefPut(k.after, rest);
      var t := EncContRef(k.after, rest).value;
      ContRefPut(k.body, t);
      var u := EncContRef(k.body, t).value;
      assert TwoRefs(u, k.body, k.after, rest);
      if k.While? {
        ContRefPut(k.cond, u);
      } else if k.Repeat? {
        NumberPut(k.count, 63, u);
      }
    }
  }

  // ---- Control data ----

  ghost predicate ArgsForm(s: Chunk, n: int, t: Chunk) {
    if n < 0 then n == -1 && Flag(s, false, t) else exists u :: Flag(s, true, u) && Number(u, 13, n, t)
  }

  ghost predicate CodepageForm(s: Chunk, cp: int, t: Chunk) {
    if cp == -1 then Flag(s, false, t) else exists u :: Flag(s, true, u) && Signed(u, 16, cp, t)
  }

  ghost predicate StackForm(s: Chunk, vs: Values, t: Chunk) {
    if vs.NoValues? then Flag(s, false, t) else exists u :: Flag(s, true, u) && EncStack(vs.vs, t) == Some(u)
  }

  /** The number of arguments, the stack, the registers and the codepage, each behind a bit that says whether it is there. */
  ghost predicate ControlForm(d: Control, s: Chunk, rest: Chunk) {
    exists a, b, c ::
      ArgsForm(s, d.numArgs, a) && StackForm(a, d.stack, b) && EncRegisters(d.save, c) == Some(b) && CodepageForm(c, d.cp, rest)
  }

  lemma ControlFormed(d: Control, rest: Chunk)
    requires EncControl(d, rest).Some?
    ensures ControlForm(d, EncControl(d, rest).value, rest)
  {
    hide ArgsForm, StackForm, CodepageForm, EncCp, EncRegisters, EncMaybeStack, EncArgs;
    var c := EncCp(d.cp, rest).value;
    CodepageFormed(d.cp, rest);
    var b := EncRegisters(d.save, c).value;
    var a := EncMaybeStack(d.stack, b).value;
    StackFormed(d.stack, b);
    ArgsFormed(d.numArgs, a);
  }

  lemma ArgsFormed(n: int, rest: Chunk)
    requires EncArgs(n, rest).Some?
    ensures ArgsForm(EncArgs(n, rest).value, n, rest)
  {
    if n >= 0 {
      Thirteen();
      NumberPut(n, 13, rest);
      FlagPut(true, PutUint(n, 13, rest));
    } else {
      FlagPut(false, rest);
    }
  }

  lemma Thirteen()
    ensures Pow2(13) == 8192
  {
    TagsFit();
    Pow2Add(8, 5);
  }

  lemma StackFormed(vs: Values, rest: Chunk)
    requires EncMaybeStack(vs, rest).Some?
    ensures StackForm(EncMaybeStack(vs, rest).value, vs, rest)
  {
    if vs.Values? {
      FlagPut(true, EncStack(vs.vs, rest).value);
    } else {
      FlagPut(false, rest);
    }
  }

  lemma CodepageFormed(cp: int, rest: Chunk)
    requires EncCp(cp, rest).Some?
    ensures CodepageForm(EncCp(cp, rest).value, cp, rest)
  {
    if cp == -1 {
      FlagPut(false, rest);
    } else {
      SignedPut(cp, 16, rest);
      FlagPut(true, PutInt(cp, 16, rest));
    }
  }

  /** What each register holds as a value: continuations in c0 to c3, cells in c4 and c5, a tuple in c7. */
  function RegisterValue(r: Registers, k: nat): Option<Value> {
    if k == 0 && r.c0.Some? then Some(ContV(r.c0.value))
    else if k == 1 && r.c1.Some? then Some(ContV(r.c1.value))
    else if k == 2 && r.c2.Some? then Some(ContV(r.c2.value))
    else if k == 3 && r.c3.Some? then Some(ContV(r.c3.value))
    else if k == 4 && r.c4.Some? then Some(CellV(r.c4.value))
    else if k == 5 && r.c5.Some? then Some(CellV(r.c5.value))
    else if k == 7 && r.c7.Values? then Some(Tuple(r.c7.vs))
    else None
  }

  /** A register that is set is stored under its number as that value, and one that is not set not at all. */
  lemma RegisterForm(r: Registers, k: nat)
    requires k < 8 && RegEntry(r, k).Some?
    ensures RegisterValue(r, k).None? ==> RegEntry(r, k).value == []
    ensures RegisterValue(r, k).Some? ==>
              exists c :: EncValue(RegisterValue(r, k).value, EMPTY) == Some(c) && RegEntry(r, k).value == [Entry(k, c.bits, c.refs)]
  {
  }

  // ---- Stacks ----

  /** A stack is its depth in 24 bits and, outermost, the cell of the rest before the last value. */
  lemma StackIs(vs: seq<Value>, rest: Chunk) returns (t: Chunk)
    requires EncStack(vs, rest).Some?
    ensures Number(EncStack(vs, rest).value, 24, |vs|, t)
    ensures vs == [] ==> t == rest
    ensures vs != [] ==>
              exists inner, u :: EncNode(vs[..|vs| - 1], EMPTY) == Some(inner) && Ref(t, Cell(false, inner.bits, inner.refs), u)
                                 && EncValue(vs[|vs| - 1], rest) == Some(u)
  {
    t := EncNode(vs, rest).value;
    NumberPut(|vs|, 24, t);
    if vs != [] {
      var inner := EncNode(vs[..|vs| - 1], EMPTY).value;
      RefPut(Cell(false, inner.bits, inner.refs), EncValue(vs[|vs| - 1], rest).value);
    }
  }

  // ---- What is refused ----

  /** A stack deeper than 1024, a value in a special cell, and a value cell with something left in it. */
  lemma ValuesRefused(s: Chunk, depth: nat, t: Chunk, c: Cell)
    ensures Number(s, 24, depth, t) && depth > 1024 ==> ParseStack(s).None?
    ensures c.Cell? && c.special ==> ParseValueCell(c).None?
    ensures ParseValueCell(c).Some? ==>
              c.Cell? && ParseValue(Chunk(c.bits, c.refs)) == Some((ParseValueCell(c).value, EMPTY))
  {
  }

  /** A codepage of -1 that is spelled out, a register of the wrong kind or number, and a continuation cell that is special or has
      something left in it. */
  lemma ControlRefused(s: Chunk, t: Chunk, k: nat, v: Value, r: Registers)
    ensures Flag(s, true, t) && t.bits != [] && TakeInt(t, 16).Some? && TakeInt(t, 16).value.0 == -1 ==> ParseCp(s).None?
    ensures (k == 6 || k > 7 || (k < 4 && !v.ContV?) || (k in {4, 5} && !v.CellV?) || (k == 7 && !v.Tuple?)) ==> SetRegister(r, k, v).None?
    ensures ParseContRef(s).Some? ==>
              s.refs != [] && s.refs[0].Cell? && !s.refs[0].special &&
              ParseCont(Chunk(s.refs[0].bits, s.refs[0].refs)) == Some((ParseContRef(s).value.0, EMPTY))
  {
  }
}
