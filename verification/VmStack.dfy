/** VM values, continuations and control data, the cells they are stored in, and the parser that reads them back
    (tlb/stack.go, tlb/continuation.go). */
module VmStack {
  import opened Options
  import opened Powers
  import opened VmCells

  datatype RawSlice = RawSlice(base: Cell, start: nat, end: nat, startRef: nat, endRef: nat)

  predicate InBounds(s: RawSlice) {
    && s.base.Cell? && |s.base.bits| <= 1023 && |s.base.refs| <= 4
    && s.start <= s.end <= |s.base.bits| && s.startRef <= s.endRef <= |s.base.refs|
  }

  /** A window into a cell. */
  type SliceVal = s: RawSlice | InBounds(s) witness RawSlice(Cell(false, [], []), 0, 0, 0, 0)

  datatype Value =
    | Null
    | Int(n: int)
    | NaN
    | CellV(cell: Cell)
    | SliceV(slice: SliceVal)
    | BuilderV(bits: seq<bool>, refs: seq<Cell>)
    | ContV(cont: Cont)
    | Tuple(vs: seq<Value>)

  datatype Cont =
    | Ordinary(data: Control, code: SliceVal)
    | ArgExt(data: Control, ext: Cont)
    | Quit(exitCode: int)
    | ExcQuit
    | Repeat(count: int, body: Cont, after: Cont)
    | Until(body: Cont, after: Cont)
    | Again(body: Cont)
    | While(checkCond: bool, cond: Cont, body: Cont, after: Cont)
    | PushInt(n: int, next: Cont)

  /** `numArgs` is -1 for all arguments, `cp` is -1 for no codepage. The stack is listed from the top of its wire list: the
      first element is the one stored deepest. */
  datatype Control = Control(save: Registers, stack: Values, numArgs: int, cp: int)

  datatype Values = NoValues | Values(vs: seq<Value>)

  datatype Registers = Registers(c0: Option<Cont>, c1: Option<Cont>, c2: Option<Cont>, c3: Option<Cont>,
                                 c4: Option<Cell>, c5: Option<Cell>, c7: Values)

  const NO_REGISTERS: Registers := Registers(None, None, None, None, None, None, NoValues)
  const MAX_STACK: nat := 1024

  predicate FitsInt(n: int, w: nat)
    requires w > 0
  {
    -(Pow2(w - 1) as int) <= n < Pow2(w - 1)
  }

  // ---- Writing ----

  /** A value in front of `rest`, or nothing when it cannot be stored. */
  function EncValue(v: Value, rest: Chunk): Option<Chunk>
    decreases v, 0
  {
    match v
    case Null => Some(PutUint(0x00, 8, rest))
    case Int(n) =>
      if FitsInt(n, 64) then Some(PutUint(0x01, 8, PutInt(n, 64, rest)))
      else if FitsInt(n, 257) then Some(PutUint(0x100, 15, PutInt(n, 257, rest)))
      else None
    case NaN => Some(PutUint(0x02FF, 16, rest))
    case CellV(c) =>
      var t :- PutRef(c, rest);
      Some(PutUint(0x03, 8, t))
    case SliceV(s) =>
      var t :- EncSlice(s, rest);
      Some(PutUint(0x04, 8, t))
    case BuilderV(bits, refs) =>
      var c :- EndCell(Chunk(bits, refs));
      var t :- PutRef(c, rest);
      Some(PutUint(0x05, 8, t))
    case ContV(k) =>
      var t :- EncCont(k, rest);
      Some(PutUint(0x06, 8, t))
    case Tuple(vs) => EncTuple(vs, rest)
  }

  function EncSlice(s: SliceVal, rest: Chunk): Option<Chunk> {
    PutRef(s.base, PutUint(s.start, 10, PutUint(s.end, 10, PutUint(s.startRef, 3, PutUint(s.endRef, 3, rest)))))
  }

  /** A value as a cell of its own. */
  function ValueCell(v: Value): Option<Cell>
    decreases v, 1
  {
    var c :- EncValue(v, EMPTY);
    EndCell(c)
  }

  /** The first `|vs|` tuple members as one reference: a single value, or a pair of the members before the last and the
      last one. */
  function TupleHead(vs: seq<Value>): Option<Cell>
    requires vs != []
    decreases vs, 0
  {
    var last :- ValueCell(vs[|vs| - 1]);
    if |vs| == 1 then Some(last)
    else
      var head :- TupleHead(vs[..|vs| - 1]);
      var t :- PutRef(last, EMPTY);
      var pair :- PutRef(head, t);
      EndCell(pair)
  }

  function EncTuple(vs: seq<Value>, rest: Chunk): Option<Chunk>
    decreases vs, 1
  {
    if |vs| >= 0x1_0000 then None
    else if vs == [] then Some(PutUint(0x07, 8, PutUint(0, 16, rest)))
    else
      var last :- ValueCell(vs[|vs| - 1]);
      var t :- PutRef(last, rest);
      if |vs| == 1 then Some(PutUint(0x07, 8, PutUint(1, 16, t)))
      else
        var head :- TupleHead(vs[..|vs| - 1]);
        var t' :- PutRef(head, t);
        Some(PutUint(0x07, 8, PutUint(|vs|, 16, t')))
  }

  function EncCont(k: Cont, rest: Chunk): Option<Chunk>
    decreases k, 2
  {
    var body :- EncContBody(k, rest);
    Some(PutUint(ContTag(k), ContTagWidth(k), body))
  }

  function ContTag(k: Cont): nat {
    match k
    case Ordinary(_, _) => 0
    case ArgExt(_, _) => 1
    case Quit(_) => 8
    case ExcQuit => 9
    case Repeat(_, _, _) => 0x14
    case Until(_, _) => 0x30
    case Again(_) => 0x31
    case While(checkCond, _, _, _) => if checkCond then 0x32 else 0x33
    case PushInt(_, _) => 0x0F
  }

  function ContTagWidth(k: Cont): nat {
    match k
    case Ordinary(_, _) => 2
    case ArgExt(_, _) => 2
    case Quit(_) => 4
    case ExcQuit => 4
    case Repeat(_, _, _) => 5
    case PushInt(_, _) => 4
    case _ => 6
  }

  function EncContBody(k: Cont, rest: Chunk): Option<Chunk>
    decreases k, 0
  {
    match k
    case Ordinary(data, code) =>
      var t :- EncSlice(code, rest);
      EncControl(data, t)
    case ArgExt(data, ext) =>
      var t :- EncContRef(ext, rest);
      EncControl(data, t)
    case Quit(code) => if FitsInt(code, 32) then Some(PutInt(code, 32, rest)) else None
    case ExcQuit => Some(rest)
    case Repeat(count, body, after) =>
      if !(0 <= count < Pow2(63)) then None
      else
        var t :- EncContRef(after, rest);
        var t' :- EncContRef(body, t);
        Some(PutUint(count, 63, t'))
    case Until(body, after) =>
      var t :- EncContRef(after, rest);
      EncContRef(body, t)
    case Again(body) => EncContRef(body, rest)
    case While(_, cond, body, after) =>
      var t :- EncContRef(after, rest);
      var t' :- EncContRef(body, t);
      EncContRef(cond, t')
    case PushInt(n, next) =>
      if !FitsInt(n, 32) then None
      else
        var t :- EncContRef(next, rest);
        Some(PutInt(n, 32, t))
  }

  function EncContRef(k: Cont, rest: Chunk): Option<Chunk>
    decreases k, 3
  {
    var content :- EncCont(k, EMPTY);
    var c :- EndCell(content);
    PutRef(c, rest)
  }

  function EncControl(d: Control, rest: Chunk): Option<Chunk>
    decreases d, 0
  {
    var cp :- EncCp(d.cp, rest);
    var regs :- EncRegisters(d.save, cp);
    var stack :- EncMaybeStack(d.stack, regs);
    EncArgs(d.numArgs, stack)
  }

  function EncArgs(n: int, rest: Chunk): Option<Chunk> {
    if n < -1 || n > 8191 then None
    else Some(if n >= 0 then PutBit(true, PutUint(n, 13, rest)) else PutBit(false, rest))
  }

  function EncMaybeStack(vs: Values, rest: Chunk): Option<Chunk>
    decreases vs, 0
  {
    if vs.NoValues? then Some(PutBit(false, rest))
    else
      var t :- EncStack(vs.vs, rest);
      Some(PutBit(true, t))
  }

  function EncCp(cp: int, rest: Chunk): Option<Chunk> {
    if !FitsInt(cp, 16) then None
    else Some(if cp == -1 then PutBit(false, rest) else PutBit(true, PutInt(cp, 16, rest)))
  }

  /** A stack: its depth, then the list of its values, the last one outermost. */
  function EncStack(vs: seq<Value>, rest: Chunk): Option<Chunk>
    decreases vs, 1
  {
    if |vs| >= Pow2(24) then None
    else
      var t :- EncNode(vs, rest);
      Some(PutUint(|vs|, 24, t))
  }

  function EncNode(vs: seq<Value>, rest: Chunk): Option<Chunk>
    decreases vs, 0
  {
    if vs == [] then Some(rest)
    else
      var inner :- EncNode(vs[..|vs| - 1], EMPTY);
      var c :- EndCell(inner);
      var t :- EncValue(vs[|vs| - 1], rest);
      PutRef(c, t)
  }

  function EncRegisters(r: Registers, rest: Chunk): Option<Chunk>
    decreases r, 0
  {
    var es :- RegEntries(r, 0);
    if es == [] then Some(PutBit(false, rest))
    else
      var t :- PutRef(DictRoot(es), rest);
      Some(PutBit(true, t))
  }

  function RegEntries(r: Registers, k: nat): Option<seq<Entry>>
    requires k <= 8
    decreases r, 0, 8 - k
  {
    if k == 8 then Some([])
    else
      var e :- RegEntry(r, k);
      var es :- RegEntries(r, k + 1);
      Some(e + es)
  }

  function AsEntry(k: nat, c: Chunk): Option<seq<Entry>> {
    if Fits(c) then Some([Entry(k, c.bits, c.refs)]) else None
  }

  /** The dictionary entry of one register, none when it is unset. */
  function RegEntry(r: Registers, k: nat): Option<seq<Entry>>
    requires k < 8
    decreases r, 0, 0
  {
    if ContAt(r, k).Some? then
      var t :- EncCont(ContAt(r, k).value, EMPTY);
      AsEntry(k, PutUint(0x06, 8, t))
    else if CellAt(r, k).Some? then
      var t :- PutRef(CellAt(r, k).value, EMPTY);
      AsEntry(k, PutUint(0x03, 8, t))
    else if k == 7 && r.c7.Values? then
      var t :- EncTuple(r.c7.vs, EMPTY);
      AsEntry(k, t)
    else Some([])
  }

  function ContAt(r: Registers, k: nat): (c: Option<Cont>)
    ensures c.Some? ==> c.value < r
  {
    if k == 0 then r.c0 else if k == 1 then r.c1 else if k == 2 then r.c2 else if k == 3 then r.c3 else None
  }

  function CellAt(r: Registers, k: nat): Option<Cell> {
    if k == 4 then r.c4 else if k == 5 then r.c5 else None
  }

  // ---- Reading ----

  predicate Done(s: Chunk) {
    s.bits == [] && s.refs == []
  }

  function ParseValue(s: Chunk): (r: Option<(Value, Chunk)>)
    ensures r.Some? ==> Size(r.value.1) < Size(s)
    decreases Size(s), 1
  {
    var typ :- Peek(s, 8);
    if typ == 0x02 then ParseBigInt(s)
    else ParseTagged(typ, Chunk(s.bits[8..], s.refs))
  }

  /** What follows each one-byte tag. */
  function ParseTagged(typ: nat, s: Chunk): (r: Option<(Value, Chunk)>)
    ensures r.Some? ==> Size(r.value.1) <= Size(s)
    decreases Size(s), 4
  {
    if typ == 0x00 then Some((Null, s))
    else if typ == 0x01 then
      var (n, s1) :- TakeInt(s, 64);
      Some((Int(n), s1))
    else if typ == 0x03 then
      var (c, s1) :- TakeRef(s);
      Some((CellV(c), s1))
    else if typ == 0x04 then
      var (sl, s1) :- ParseSlice(s);
      Some((SliceV(sl), s1))
    else if typ == 0x05 then
      var (c, s1) :- TakeRef(s);
      var open :- OpenOrdinary(c);
      Some((BuilderV(open.bits, open.refs), s1))
    else if typ == 0x06 then
      var (k, s1) :- ParseCont(s);
      Some((ContV(k), s1))
    else if typ == 0x07 then
      var (n, s1) :- TakeUint(s, 16);
      var (vs, s2) :- ParseTuple(n, s1);
      Some((Tuple(vs), s2))
    else None
  }

  /** A wide integer, or the not-a-number mark that shares its first bits. */
  function ParseBigInt(s: Chunk): (r: Option<(Value, Chunk)>)
    ensures r.Some? ==> Size(r.value.1) < Size(s)
  {
    if |s.bits| >= 16 && Peek(s, 16).value % 0x200 == 0xFF then
      Some((NaN, Chunk(s.bits[16..], s.refs)))
    else
      var (prefix, s1) :- TakeUint(s, 15);
      if prefix != 0x100 then None
      else
        var (n, s2) :- TakeInt(s1, 257);
        Some((Int(n), s2))
  }

  function ParseSlice(s: Chunk): (r: Option<(SliceVal, Chunk)>)
    ensures r.Some? ==> Size(r.value.1) < Size(s)
  {
    var (base, s1) :- TakeRef(s);
    var (start, s2) :- TakeUint(s1, 10);
    var (end, s3) :- TakeUint(s2, 10);
    if start > end then None
    else
      var (startRef, s4) :- TakeUint(s3, 3);
      var (endRef, s5) :- TakeUint(s4, 3);
      var sl := RawSlice(base, start, end, startRef, endRef);
      if startRef > endRef || endRef > 4 || !InBounds(sl) then None else Some((sl, s5))
  }

  /** A cell that must hold one value and nothing else. */
  function ParseValueCell(c: Cell): Option<Value>
    decreases SizeCell(c), 0
  {
    var s :- OpenOrdinary(c);
    var (v, rest) :- ParseValue(s);
    if Done(rest) then Some(v) else None
  }

  function ParseTupleHead(head: Cell, n: nat): Option<seq<Value>>
    requires n > 0
    decreases SizeCell(head), 1
  {
    if n == 1 then
      var v :- ParseValueCell(head);
      Some([v])
    else
      var pair :- OpenOrdinary(head);
      var (head', s1) :- TakeRef(pair);
      var (tail, s2) :- TakeRef(s1);
      if !Done(s2) then None
      else
        var v :- ParseValueCell(tail);
        var vs :- ParseTupleHead(head', n - 1);
        Some(vs + [v])
  }

  function ParseTuple(n: nat, s: Chunk): (r: Option<(seq<Value>, Chunk)>)
    ensures r.Some? ==> Size(r.value.1) <= Size(s)
    decreases Size(s), 2
  {
    if n == 0 then Some(([], s))
    else
      var (first, s1) :- TakeRef(s);
      if n == 1 then
        var v :- ParseValueCell(first);
        Some(([v], s1))
      else
        var (tail, s2) :- TakeRef(s1);
        var v :- ParseValueCell(tail);
        var vs :- ParseTupleHead(first, n - 1);
        Some((vs + [v], s2))
  }

  /** The tag of a continuation is found by looking at two, four, five and six bits. */
  function ContTagOf(s: Chunk): (r: Option<(nat, nat)>)
    ensures r.Some? ==> 0 < r.value.1 <= |s.bits|
  {
    var two :- Peek(s, 2);
    if two < 2 then Some((two, 2))
    else
      var four :- Peek(s, 4);
      if two == 2 && (four == 8 || four == 9) then Some((four, 4))
      else if two == 2 then
        var five :- Peek(s, 5);
        if five == 0x14 then Some((five, 5)) else None
      else if four == 0x0F then Some((four, 4))
      else
        var six :- Peek(s, 6);
        if 0x30 <= six <= 0x33 then Some((six, 6)) else None
  }

  function ParseCont(s: Chunk): (r: Option<(Cont, Chunk)>)
    ensures r.Some? ==> Size(r.value.1) < Size(s)
    decreases Size(s), 1
  {
    var (tag, w) :- ContTagOf(s);
    ParseContBody(tag, Chunk(s.bits[w..], s.refs))
  }

  /** What follows each continuation tag. */
  function ParseContBody(tag: nat, s: Chunk): (r: Option<(Cont, Chunk)>)
    ensures r.Some? ==> Size(r.value.1) <= Size(s)
    decreases Size(s), 4
  {
    if tag == 0 then
      var (data, s1) :- ParseControl(s);
      var (code, s2) :- ParseSlice(s1);
      Some((Ordinary(data, code), s2))
    else if tag == 1 then
      var (data, s1) :- ParseControl(s);
      var (next, s2) :- ParseContRef(s1);
      Some((ArgExt(data, next), s2))
    else if tag == 8 then
      var (code, s1) :- TakeInt(s, 32);
      Some((Quit(code), s1))
    else if tag == 9 then Some((ExcQuit, s))
    else if tag == 0x14 then ParseRepeat(s)
    else if tag == 0x0F then ParsePushInt(s)
    else if tag == 0x30 then
      var (body, after, s1) :- ParseTwoRefs(s);
      Some((Until(body, after), s1))
    else if tag == 0x31 then
      var (body, s1) :- ParseContRef(s);
      Some((Again(body), s1))
    else if tag == 0x32 || tag == 0x33 then
      var (cond, s1) :- ParseContRef(s);
      var (body, after, s2) :- ParseTwoRefs(s1);
      Some((While(tag == 0x32, cond, body, after), s2))
    else None
  }

  function ParsePushInt(s: Chunk): (r: Option<(Cont, Chunk)>)
    ensures r.Some? ==> Size(r.value.1) <= Size(s)
    decreases Size(s), 1
  {
    var (n, s1) :- TakeInt(s, 32);
    var (next, s2) :- ParseContRef(s1);
    Some((PushInt(n, next), s2))
  }

  function ParseRepeat(s: Chunk): (r: Option<(Cont, Chunk)>)
    ensures r.Some? ==> Size(r.value.1) <= Size(s)
    decreases Size(s), 2
  {
    var (count, s1) :- TakeUint(s, 63);
    var (body, after, s2) :- ParseTwoRefs(s1);
    Some((Repeat(count, body, after), s2))
  }

  function ParseTwoRefs(s: Chunk): (r: Option<(Cont, Cont, Chunk)>)
    ensures r.Some? ==> Size(r.value.2) < Size(s)
    decreases Size(s), 1
  {
    var (body, s1) :- ParseContRef(s);
    var (after, s2) :- ParseContRef(s1);
    Some((body, after, s2))
  }

  function ParseContRef(s: Chunk): (r: Option<(Cont, Chunk)>)
    ensures r.Some? ==> Size(r.value.1) < Size(s)
    decreases Size(s), 0
  {
    var (base, s1) :- TakeRef(s);
    var open :- OpenOrdinary(base);
    var (k, rest) :- ParseCont(open);
    if Done(rest) then Some((k, s1)) else None
  }

  function ParseControl(s: Chunk): (r: Option<(Control, Chunk)>)
    ensures r.Some? ==> Size(r.value.1) < Size(s)
    decreases Size(s), 0
  {
    var (args, s1) :- ParseArgs(s);
    var (stack, s2) :- ParseMaybeStack(s1);
    var (save, s3) :- ParseRegisters(s2);
    var (cp, s4) :- ParseCp(s3);
    Some((Control(save, stack, args, cp), s4))
  }

  function ParseArgs(s: Chunk): (r: Option<(int, Chunk)>)
    ensures r.Some? ==> Size(r.value.1) < Size(s)
  {
    var (has, s1) :- TakeBit(s);
    if !has then Some((-1, s1))
    else
      var (n, s2) :- TakeUint(s1, 13);
      var args: int := n;
      Some((args, s2))
  }

  function ParseMaybeStack(s: Chunk): (r: Option<(Values, Chunk)>)
    ensures r.Some? ==> Size(r.value.1) < Size(s)
    decreases Size(s), 0
  {
    var (has, s1) :- TakeBit(s);
    if !has then Some((NoValues, s1))
    else
      var (vs, s2) :- ParseStack(s1);
      Some((Values(vs), s2))
  }

  /** A stored codepage is never the one that stands for none. */
  function ParseCp(s: Chunk): (r: Option<(int, Chunk)>)
    ensures r.Some? ==> Size(r.value.1) < Size(s)
  {
    var (has, s1) :- TakeBit(s);
    if !has then Some((-1, s1))
    else
      var (cp, s2) :- TakeInt(s1, 16);
      if cp == -1 then None else Some((cp, s2))
  }

  function ParseStack(s: Chunk): (r: Option<(seq<Value>, Chunk)>)
    ensures r.Some? ==> Size(r.value.1) < Size(s)
    decreases Size(s), 0
  {
    var (depth, s1) :- TakeUint(s, 24);
    if depth > MAX_STACK then None else ParseNode(s1, depth)
  }

  /** `n` list cells, the outermost at `s`; inner ones must hold exactly their reference and value, the innermost nothing. */
  function ParseNode(s: Chunk, n: nat): (r: Option<(seq<Value>, Chunk)>)
    ensures r.Some? ==> Size(r.value.1) <= Size(s)
    decreases Size(s), 3
  {
    if n == 0 then Some(([], s))
    else
      var (rest, s1) :- TakeRef(s);
      var (v, s2) :- ParseValue(s1);
      var open :- OpenOrdinary(rest);
      var (vs, left) :- ParseNode(open, n - 1);
      if Done(left) then Some((vs + [v], s2)) else None
  }

  function ParseRegisters(s: Chunk): (r: Option<(Registers, Chunk)>)
    ensures r.Some? ==> Size(r.value.1) < Size(s)
    decreases Size(s), 0
  {
    var (some, s1) :- TakeBit(s);
    if !some then Some((NO_REGISTERS, s1))
    else
      var (root, s2) :- TakeRef(s1);
      if !root.DictRoot? then None
      else
        var regs :- ParseEntries(root.entries, NO_REGISTERS);
        Some((regs, s2))
  }

  function ParseEntries(es: seq<Entry>, r: Registers): Option<Registers>
    decreases SizeEntries(es), 0
  {
    if es == [] then Some(r)
    else
      var (v, rest) :- ParseValue(Chunk(es[0].bits, es[0].refs));
      if !Done(rest) then None
      else
        var r' :- SetRegister(r, es[0].key, v);
        ParseEntries(es[1..], r')
  }

  /** Continuations in c0 to c3, cells in c4 and c5, a tuple in c7. */
  function SetRegister(r: Registers, k: nat, v: Value): Option<Registers> {
    if k < 4 && v.ContV? then
      Some(if k == 0 then r.(c0 := Some(v.cont)) else if k == 1 then r.(c1 := Some(v.cont))
           else if k == 2 then r.(c2 := Some(v.cont)) else r.(c3 := Some(v.cont)))
    else if k == 4 && v.CellV? then Some(r.(c4 := Some(v.cell)))
    else if k == 5 && v.CellV? then Some(r.(c5 := Some(v.cell)))
    else if k == 7 && v.Tuple? then Some(r.(c7 := Values(v.vs)))
    else None
  }
}
